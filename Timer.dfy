/**
  * The five-minute countdown of a revision session. Each tick writes the time
  * left, as `M:SS`, into the revision view model.
  */
module Timer {
  import opened Wrappers
  import opened Formatting
  import opened ReviseModel

  /** The countdown's length in milliseconds; it ticks once a second. */
  const MillisInFuture: int := 300000

  /**
    * `formatMillisecondsToMS`: whole seconds (truncated toward zero), then
    * minutes with `%d` and the seconds left over with `%02d`.
    */
  function FormatMillisecondsToMS(milliseconds: int): string {
    var totalSeconds := TruncDiv(milliseconds, 1000);
    var minutes := TruncDiv(totalSeconds, 60);
    var seconds := TruncRem(totalSeconds, 60);
    FormatDecimal(minutes, 0) + ":" + FormatDecimal(seconds, 2)
  }

  /**
    * The text always reads back as minutes and seconds that add up to the
    * truncated whole seconds; for a time that is not negative these are
    * whole minutes and the seconds 0..59 left over. A negative time (which
    * the countdown never reports) gives fields that are both at most zero.
    */
  lemma FormatMillisecondsFields(milliseconds: int)
    ensures ParseClock(FormatMillisecondsToMS(milliseconds)).Some?
    ensures var (minutes, seconds) := ParseClock(FormatMillisecondsToMS(milliseconds)).value;
      && minutes * 60 + seconds == TruncDiv(milliseconds, 1000)
      && -60 < seconds < 60
      && (milliseconds >= 0 ==>
            && minutes == (milliseconds / 1000) / 60
            && seconds == (milliseconds / 1000) % 60
            && 0 <= seconds)
      && (milliseconds < 0 ==> minutes <= 0 && seconds <= 0)
  {
    var total := TruncDiv(milliseconds, 1000);
    ParseFormattedClock(TruncDiv(total, 60), 0, TruncRem(total, 60), 2);
  }

  /**
    * For a time that is not negative the minutes are printed without padding
    * or leading zeros and the seconds as exactly two digits.
    */
  lemma FormatMillisecondsLayout(milliseconds: int)
    requires milliseconds >= 0
    ensures var minutes := Digits((milliseconds / 1000) / 60);
      var r := FormatMillisecondsToMS(milliseconds);
      && |r| == |minutes| + 3
      && r[..|minutes|] == minutes
      && r[|minutes|] == ':'
      && AllDigits(r[|minutes| + 1..])
  {
    var total := milliseconds / 1000;
    var minutes := Digits(total / 60);
    var s := FormatDecimal(total % 60, 2);
    var r := FormatMillisecondsToMS(milliseconds);
    assert r == minutes + ":" + s;
    assert |s| == 2;
    assert r[..|minutes|] == minutes;
    assert r[|minutes| + 1..] == s;
  }

  /** 300000 ms, the countdown's length, formats as `5:00`. */
  lemma CountdownLengthFormat()
    ensures FormatMillisecondsToMS(MillisInFuture) == "5:00"
  {
    assert FormatDecimal(5, 0) == "5";
    assert FormatDecimal(0, 2) == "00";
  }

  /** Two times that are not negative show the same text exactly when they lie in the same whole second. */
  lemma FormatMillisecondsSameSecond(a: int, b: int)
    requires a >= 0 && b >= 0
    ensures FormatMillisecondsToMS(a) == FormatMillisecondsToMS(b) <==> a / 1000 == b / 1000
  {
    FormatMillisecondsFields(a);
    FormatMillisecondsFields(b);
  }

  /** The countdown object; its view model is the session's shared one. */
  class ReviseTimer {
    const viewModel: WordReviseViewModel

    constructor (viewModel: WordReviseViewModel)
      ensures this.viewModel == viewModel
    {
      this.viewModel := viewModel;
    }

    /** `onTick`: publishes the time left, and changes nothing else in the view model. */
    method OnTick(millisUntilFinished: int)
      modifies viewModel`formattedTime
      ensures viewModel.formattedTime == FormatMillisecondsToMS(millisUntilFinished)
    {
      viewModel.SetFormattedTime(FormatMillisecondsToMS(millisUntilFinished));
    }
  }
}
