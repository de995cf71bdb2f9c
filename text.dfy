/**
 * String joining as both plugin implementations build it, and the detect
 * string the host uses to decide which files the plugin handles.
 */
module Text {

  /** `xs` joined with `sep` between neighbours: no leading or trailing separator. */
  function Join(xs: seq<string>, sep: string): string
  {
    if |xs| == 0 then ""
    else if |xs| == 1 then xs[0]
    else Join(xs[..|xs| - 1], sep) + sep + xs[|xs| - 1]
  }

  /** Every element followed by `sep`: what an accumulating loop builds before trimming. */
  function Terminated(xs: seq<string>, sep: string): string
  {
    if |xs| == 0 then "" else Terminated(xs[..|xs| - 1], sep) + xs[|xs| - 1] + sep
  }

  /** Appending one element to a join adds exactly one separator, and only if the join was not empty. */
  lemma JoinSnoc(xs: seq<string>, x: string, sep: string)
    ensures Join(xs + [x], sep) == if xs == [] then x else Join(xs, sep) + sep + x
  {
    assert (xs + [x])[..|xs|] == xs;
  }

  /** The accumulated text is the join plus one trailing separator, so cutting `|sep|` characters leaves the join. */
  lemma {:induction false} TerminatedIsJoin(xs: seq<string>, sep: string)
    requires xs != []
    ensures Terminated(xs, sep) == Join(xs, sep) + sep
  {
    var init := xs[..|xs| - 1];
    var last := xs[|xs| - 1];
    assert xs == init + [last];
    if init != [] {
      TerminatedIsJoin(init, sep);
    }
    JoinSnoc(init, last, sep);
  }

  /** A join of elements that are never empty is empty exactly when there are none. */
  lemma {:induction false} JoinEmpty(xs: seq<string>, sep: string)
    requires forall i :: 0 <= i < |xs| ==> xs[i] != ""
    ensures Join(xs, sep) == "" <==> xs == []
  {
    if |xs| > 1 {
      var last := xs[|xs| - 1];
      assert |Join(xs, sep)| >= |last| > 0;
    }
  }

  /** A non-empty join ends with the last element, hence never with a trailing separator. */
  lemma JoinEndsWithLast(xs: seq<string>, sep: string)
    requires xs != []
    ensures var j := Join(xs, sep); var last := xs[|xs| - 1];
            |j| >= |last| && j[|j| - |last|..] == last
  {
    var j := Join(xs, sep);
    var last := xs[|xs| - 1];
    if |xs| > 1 {
      assert j == Join(xs[..|xs| - 1], sep) + sep + last;
    }
  }

  /** Decimal rendering of a natural number, as an output stream writes an unsigned value. */
  function NatToString(n: nat): (s: string)
    ensures s != []
    ensures forall i :: 0 <= i < |s| ==> '0' <= s[i] <= '9'
  {
    var d := [(n % 10) as char + '0'];
    if n < 10 then d else NatToString(n / 10) + d
  }

  predicate IsDigits(s: string)
  {
    forall i :: 0 <= i < |s| ==> '0' <= s[i] <= '9'
  }

  /** The number a run of decimal digits denotes, most significant digit first. */
  function DecimalValue(s: string): nat
    requires IsDigits(s)
  {
    if s == [] then 0
    else DecimalValue(s[..|s| - 1]) * 10 + (s[|s| - 1] as int - '0' as int)
  }

  /** Reading the rendered digits back gives the number: the rendering is exact. */
  lemma {:induction false} NatToStringValue(n: nat)
    ensures IsDigits(NatToString(n)) && DecimalValue(NatToString(n)) == n
  {
    var s := NatToString(n);
    var d := [(n % 10) as char + '0'];
    if n >= 10 {
      NatToStringValue(n / 10);
      assert s == NatToString(n / 10) + d;
      assert s[..|s| - 1] == NatToString(n / 10);
    }
  }

  /** Different numbers render differently. */
  lemma NatToStringInjective(m: nat, n: nat)
    ensures NatToString(m) == NatToString(n) ==> m == n
  {
    NatToStringValue(m);
    NatToStringValue(n);
  }

  const EXT_OPEN: string := "EXT=\""
  const EXT_CLOSE: string := "\""
  const EXT_OR: string := " | "

  /** One `EXT="<EXT>"` clause, the extension upper-cased by `upper` (TagLib::String::upper). */
  function Clause(ext: string, upper: string -> string): string
  {
    EXT_OPEN + upper(ext) + EXT_CLOSE
  }

  /** The clauses for all extensions, in enumeration order. */
  function Clauses(exts: seq<string>, upper: string -> string): (cs: seq<string>)
    ensures |cs| == |exts|
    ensures forall i :: 0 <= i < |exts| ==> cs[i] == Clause(exts[i], upper)
  {
    if exts == [] then []
    else Clauses(exts[..|exts| - 1], upper) + [Clause(exts[|exts| - 1], upper)]
  }

  /** The detect string: the clauses OR-joined. */
  function DetectString(exts: seq<string>, upper: string -> string): string
  {
    Join(Clauses(exts, upper), EXT_OR)
  }

  /** The detect string is empty exactly when there are no extensions. */
  lemma DetectStringEmpty(exts: seq<string>, upper: string -> string)
    ensures DetectString(exts, upper) == "" <==> exts == []
  {
    var cs := Clauses(exts, upper);
    forall i | 0 <= i < |cs| ensures cs[i] != "" {
      assert cs[i][0] == 'E';
    }
    JoinEmpty(cs, EXT_OR);
  }

  /** A non-empty detect string ends with the closing quote of the last clause, never with " | ". */
  lemma DetectStringNoTrailingSeparator(exts: seq<string>, upper: string -> string)
    requires exts != []
    ensures var d := DetectString(exts, upper);
            d != [] && d[|d| - 1] == '"' &&
            !(|d| >= |EXT_OR| && d[|d| - |EXT_OR|..] == EXT_OR)
  {
    var cs := Clauses(exts, upper);
    var d := DetectString(exts, upper);
    JoinEndsWithLast(cs, EXT_OR);
    var last := cs[|cs| - 1];
    assert last[|last| - 1] == '"';
    assert d[|d| - 1] == last[|last| - 1];
  }

  /** Two extensions give two clauses separated by exactly one " | ". */
  lemma DetectStringExample(upper: string -> string)
    requires upper("mp3") == "MP3" && upper("flac") == "FLAC"
    ensures DetectString(["mp3", "flac"], upper) == "EXT=\"MP3\" | EXT=\"FLAC\""
  {
    var exts := ["mp3", "flac"];
    var cs := Clauses(exts, upper);
    assert cs[0] == Clause("mp3", upper) == "EXT=\"MP3\"";
    assert cs[1] == Clause("flac", upper) == "EXT=\"FLAC\"";
    assert cs[..1] == [cs[0]];
    assert Join(cs, EXT_OR) == cs[0] + EXT_OR + cs[1];
  }
}
