/**
 * The "Length (formatted)" field: the track length split into minutes and
 * seconds with C++ integer arithmetic, then rendered by the plugin's helper
 * functions, which are kept abstract.
 */
module TrackLength {

  /** C++ `a % b` for b > 0: truncating, so the remainder takes the sign of `a`. */
  function CRem(a: int, b: int): int
    requires b > 0
  {
    if a >= 0 then a % b else -((-a) % b)
  }

  /** C++ `a / b` for b > 0: rounds toward zero. */
  function CDiv(a: int, b: int): int
    requires b > 0
  {
    if a >= 0 then a / b else -((-a) / b)
  }

  /**
   * `seconds = length % 60; minutes = (length - seconds) / 60`, returned as
   * (minutes, seconds). The pair always recombines to the length; for a
   * non-negative length the seconds are a proper clock value.
   */
  function SplitLength(length: int): (r: (int, int))
    ensures r.0 * 60 + r.1 == length
    ensures length >= 0 ==> r.0 >= 0 && 0 <= r.1 < 60
    ensures length < 0 ==> r.0 <= 0 && -60 < r.1 <= 0
  {
    var seconds := CRem(length, 60);
    var minutes := CDiv(length - seconds, 60);
    if length >= 0 then
      assert length - seconds == (length / 60) * 60;
      (minutes, seconds)
    else
      assert -(length - seconds) == ((-length) / 60) * 60;
      (minutes, seconds)
  }

  /** The helpers the source calls but does not define here: Int2Str and formatSeconds. */
  datatype Formatters = Formatters(int2Str: int -> string, formatSeconds: int -> string)

  /**
   * `<minutes>m <formatted seconds>s`: whatever the helpers print, the text
   * starts with the printed minutes, then "m ", and ends with "s".
   */
  function FormattedLength(length: int, fmt: Formatters): (s: string)
    ensures var m := fmt.int2Str(SplitLength(length).0);
            |s| >= |m| + 3 && s[..|m|] == m && s[|m|..|m| + 2] == "m " && s[|s| - 1] == 's'
  {
    var (minutes, seconds) := SplitLength(length);
    fmt.int2Str(minutes) + "m " + fmt.formatSeconds(seconds) + "s"
  }

  /** Three sample durations: 125 s, 59 s and 0 s. */
  lemma SplitLengthExamples()
    ensures SplitLength(125) == (2, 5)
    ensures SplitLength(59) == (0, 59)
    ensures SplitLength(0) == (0, 0)
  {
  }
}
