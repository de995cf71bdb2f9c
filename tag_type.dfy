/**
 * The "Tag type" field: which tag containers a file carries. The chain of
 * dynamic_cast probes becomes a choice on the handle's Kind; each probe that
 * matches a valid file takes that class's sub-tag accessors.
 */
module TagType {
  import opened Wrappers
  import opened TagLibHandle
  import opened Text

  /** The four sub-tags the probes chose, and the "plain Ogg" flag (bJustSayXiph). */
  datatype Probed = Probed(id3v2: Option<Id3v2Tag>, id3v1: Option<SubTag>,
                           ape: Option<SubTag>, xiph: Option<SubTag>, justSayXiph: bool)

  /**
   * What the probe chain yields, family by family: MPEG gives ID3v2, ID3v1 and
   * APE; FLAC gives ID3v2, ID3v1 and Xiph; MusePack and WavPack give ID3v1 and
   * APE; TrueAudio gives ID3v2 and ID3v1; a valid Ogg file only raises the
   * plain-Ogg flag. An invalid file or another class yields nothing.
   */
  function Probe(h: Handle): (p: Probed)
    ensures !h.isValid ==> p == Probed(None, None, None, None, false)
    ensures p.justSayXiph <==> h.isValid && h.kind == Ogg
    ensures p.id3v2 == None || p.id3v2 == h.id3v2
    ensures p.id3v1 == None || p.id3v1 == h.id3v1
    ensures p.ape == None || p.ape == h.ape
    ensures p.xiph == None || p.xiph == h.xiph
    ensures p.id3v2.Some? ==> h.kind in {Mpeg, Flac, TrueAudio}
    ensures p.ape.Some? ==> h.kind in {Mpeg, Mpc, WavPack}
    ensures p.xiph.Some? ==> h.kind == Flac
  {
    if !h.isValid then Probed(None, None, None, None, false)
    else match h.kind
      case Mpeg => Probed(h.id3v2, h.id3v1, h.ape, None, false)
      case Flac => Probed(h.id3v2, h.id3v1, None, h.xiph, false)
      case Mpc => Probed(None, h.id3v1, h.ape, None, false)
      case Ogg => Probed(None, None, None, None, true)
      case TrueAudio => Probed(h.id3v2, h.id3v1, None, None, false)
      case WavPack => Probed(None, h.id3v1, h.ape, None, false)
      case OtherKind => Probed(None, None, None, None, false)
  }

  predicate ShowsId3v2(p: Probed) { p.id3v2.Some? && !p.id3v2.value.isEmpty }
  predicate ShowsId3v1(p: Probed) { p.id3v1.Some? && !p.id3v1.value.isEmpty }
  predicate ShowsApe(p: Probed) { p.ape.Some? && !p.ape.value.isEmpty }
  predicate ShowsXiph(p: Probed) { (p.xiph.Some? && !p.xiph.value.isEmpty) || p.justSayXiph }

  function Id3v2Label(t: Id3v2Tag): string
  {
    "ID3v2." + NatToString(t.majorVersion) + "." + NatToString(t.revisionNumber)
  }

  /** In `a + "." + b` with `a` all digits, the first dot is the one right after `a`. */
  lemma FirstDot(a: string, b: string)
    requires IsDigits(a)
    ensures var s := a + "." + b;
            s[|a|] == '.' && forall i :: 0 <= i < |a| ==> s[i] != '.'
  {
  }

  /** A dot never occurs in a run of digits, so a dot-separated pair of digit runs splits one way only. */
  lemma DigitsDotSplit(a: string, b: string, a2: string, b2: string)
    requires IsDigits(a) && IsDigits(a2)
    requires a + "." + b == a2 + "." + b2
    ensures a == a2 && b == b2
  {
    var s := a + "." + b;
    FirstDot(a, b);
    FirstDot(a2, b2);
    assert |a| == |a2|;
    assert a == s[..|a|] == a2;
    assert b == s[|a| + 1..] == b2;
  }

  /** Different ID3v2 versions print different labels. */
  lemma Id3v2LabelInjective(t: Id3v2Tag, u: Id3v2Tag)
    ensures Id3v2Label(t) == Id3v2Label(u) ==>
              t.majorVersion == u.majorVersion && t.revisionNumber == u.revisionNumber
  {
    if Id3v2Label(t) == Id3v2Label(u) {
      var a, b := NatToString(t.majorVersion), NatToString(t.revisionNumber);
      var a2, b2 := NatToString(u.majorVersion), NatToString(u.revisionNumber);
      var prefix := "ID3v2.";
      assert Id3v2Label(t) == prefix + (a + "." + b);
      assert Id3v2Label(u) == prefix + (a2 + "." + b2);
      assert a + "." + b == Id3v2Label(t)[|prefix|..];
      assert a2 + "." + b2 == Id3v2Label(u)[|prefix|..];
      DigitsDotSplit(a, b, a2, b2);
      NatToStringInjective(t.majorVersion, u.majorVersion);
      NatToStringInjective(t.revisionNumber, u.revisionNumber);
    }
  }

  /** The labels shown, in the fixed order ID3v2, ID3v1, APE, XiphComment. */
  function Labels(p: Probed): (ls: seq<string>)
    ensures forall i :: 0 <= i < |ls| ==> ls[i] != ""
  {
    (if ShowsId3v2(p) then [Id3v2Label(p.id3v2.value)] else [])
    + (if ShowsId3v1(p) then ["ID3v1"] else [])
    + (if ShowsApe(p) then ["APE"] else [])
    + (if ShowsXiph(p) then ["XiphComment"] else [])
  }

  /** The tag-type text: the labels joined with ", ". */
  function TagTypeText(h: Handle): string
  {
    Join(Labels(Probe(h)), ", ")
  }

  /** One step of the stream formatting: a separator exactly when something was written before. */
  lemma AppendLabel(r: string, shown: seq<string>, name: string, useSeparator: bool)
    requires r == Join(shown, ", ") && useSeparator == (shown != [])
    ensures r + (if useSeparator then ", " else "") + name == Join(shown + [name], ", ")
  {
    JoinSnoc(shown, name, ", ");
  }

  /** No probed family carries both an APE tag and a Xiph comment. */
  lemma ApeExcludesXiph(h: Handle)
    ensures !(ShowsApe(Probe(h)) && ShowsXiph(Probe(h)))
  {
  }

  /** No container shown gives the empty string, and only then. */
  lemma TagTypeEmpty(h: Handle)
    ensures TagTypeText(h) == "" <==> Labels(Probe(h)) == []
  {
    JoinEmpty(Labels(Probe(h)), ", ");
  }

  /** A valid Ogg file always reports XiphComment, and nothing else. */
  lemma OggSaysXiph(h: Handle)
    requires h.kind == Ogg && h.isValid
    ensures TagTypeText(h) == "XiphComment"
  {
    assert Labels(Probe(h)) == ["XiphComment"];
  }

  /** An MPEG file whose only non-empty container is ID3v2 reports just its version. */
  lemma OnlyId3v2(h: Handle)
    requires h.kind == Mpeg && h.isValid
    requires h.id3v2.Some? && !h.id3v2.value.isEmpty
    requires h.id3v1.None? || h.id3v1.value.isEmpty
    requires h.ape.None? || h.ape.value.isEmpty
    ensures TagTypeText(h) == Id3v2Label(h.id3v2.value)
  {
    assert Labels(Probe(h)) == [Id3v2Label(h.id3v2.value)];
  }

  /** An MPEG file with non-empty ID3v2 and ID3v1 tags (and no APE) lists both, comma-separated. */
  lemma Id3v2AndId3v1(h: Handle)
    requires h.kind == Mpeg && h.isValid
    requires h.id3v2.Some? && !h.id3v2.value.isEmpty
    requires h.id3v1.Some? && !h.id3v1.value.isEmpty
    requires h.ape.None? || h.ape.value.isEmpty
    ensures TagTypeText(h) == Id3v2Label(h.id3v2.value) + ", ID3v1"
  {
    var ls := Labels(Probe(h));
    assert ls == [Id3v2Label(h.id3v2.value), "ID3v1"];
    JoinSnoc([ls[0]], "ID3v1", ", ");
    assert [ls[0]] + ["ID3v1"] == ls;
  }
}
