/**
  * The time label under the player's seek bar: a playback position in
  * milliseconds written as `MM:SS`, both fields at least two digits wide.
  */
module Seekbar {
  import opened Wrappers
  import opened Formatting

  /**
    * `formatTime`: a position that is not positive is written `0:00`;
    * otherwise the whole seconds (sub-second milliseconds truncated) split into
    * minutes and the seconds left over, each formatted with `%02d`.
    */
  function FormatTime(milliseconds: int): string {
    if milliseconds <= 0 then "0:00"
    else
      var minutes := TruncDiv(TruncDiv(milliseconds, 1000), 60);
      var seconds := TruncRem(TruncDiv(milliseconds, 1000), 60);
      FormatDecimal(minutes, 2) + ":" + FormatDecimal(seconds, 2)
  }

  /**
    * A positive position reads back as whole minutes and leftover seconds:
    * the seconds lie in 0..59 and the two fields add up to the position's
    * whole seconds.
    */
  lemma FormatTimeFields(milliseconds: int)
    requires milliseconds > 0
    ensures ParseClock(FormatTime(milliseconds)).Some?
    ensures var (minutes, seconds) := ParseClock(FormatTime(milliseconds)).value;
      && minutes == (milliseconds / 1000) / 60
      && seconds == (milliseconds / 1000) % 60
      && 0 <= seconds < 60
      && minutes * 60 + seconds == milliseconds / 1000
  {
    var total := milliseconds / 1000;
    ParseFormattedClock(total / 60, 2, total % 60, 2);
  }

  /**
    * For a positive position the label is a colon between two runs of digits:
    * the seconds are exactly two digits, the minutes at least two (exactly two
    * under 100 minutes).
    */
  lemma FormatTimeLayout(milliseconds: int)
    requires milliseconds > 0
    ensures var r := FormatTime(milliseconds);
      && |r| >= 5
      && r[|r| - 3] == ':'
      && AllDigits(r[..|r| - 3]) && AllDigits(r[|r| - 2..])
      && (milliseconds / 1000 < 6000 ==> |r| == 5)
  {
    var total := milliseconds / 1000;
    var m := FormatDecimal(total / 60, 2);
    var s := FormatDecimal(total % 60, 2);
    var r := FormatTime(milliseconds);
    assert r == m + ":" + s;
    assert |s| == 2;
    assert r[..|r| - 3] == m;
    assert r[|r| - 2..] == s;
  }

  /** The label is `0:00` exactly for positions that are not positive; any positive one is longer. */
  lemma FormatTimeZeroLabel(milliseconds: int)
    ensures FormatTime(milliseconds) == "0:00" <==> milliseconds <= 0
  {
    if milliseconds > 0 {
      FormatTimeLayout(milliseconds);
    }
  }

  /** Positions under one second give `00:00`, which is not the `0:00` of a zero position. */
  lemma FormatTimeUnderOneSecond(milliseconds: int)
    requires 0 < milliseconds < 1000
    ensures FormatTime(milliseconds) == "00:00"
    ensures FormatTime(milliseconds) != FormatTime(0)
  {
    assert FormatDecimal(0, 2) == "00";
  }

  lemma FormatTimeExample()
    ensures FormatTime(61000) == "01:01"
  {
    assert FormatDecimal(1, 2) == "01";
  }

  /**
    * Two positive positions get the same label exactly when they lie in the
    * same whole second.
    */
  lemma FormatTimeSameSecond(a: int, b: int)
    requires a > 0 && b > 0
    ensures FormatTime(a) == FormatTime(b) <==> a / 1000 == b / 1000
  {
    FormatTimeFields(a);
    FormatTimeFields(b);
  }
}
