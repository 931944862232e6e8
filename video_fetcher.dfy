/** The front-end component (frontend/src/components/VideoFetcher.tsx): the
    `m:ss` duration formatter, the duration label, the submit button's
    disabled rule and the state changes of a submission. Rendering and the
    HTTP client are not modelled; a submission's outcome is a parameter. */
module VideoFetcher {
  import opened Base
  import opened Text
  import opened Records

  /** JavaScript's `a % b` for a positive `b`: truncated toward zero, so the
      remainder takes the sign of `a`. It differs from `a` by a multiple of
      `b`, lies in [0, b) for a non-negative `a` and in (-b, 0] for a
      negative one, which determines it. */
  function JsRemainder(a: int, b: int): (r: int)
    requires b > 0
    ensures (a - r) % b == 0
    ensures a >= 0 ==> 0 <= r < b
    ensures a < 0 ==> -b < r <= 0
    ensures a >= 0 ==> r == a % b
    ensures a < 0 ==> r == -((-a) % b)
  {
    if a >= 0 then
      assert a == b * (a / b) + a % b;
      MultipleMod(b, a / b);
      a % b
    else
      var q := (-a) / b;
      var m := (-a) % b;
      assert -a == b * q + m;
      MultipleMod(b, -q);
      assert a - -m == b * -q;
      -m
  }

  lemma MultipleMod(b: int, k: int)
    requires b > 0
    ensures (b * k) % b == 0
  {
    var x := b * k;
    var m := k - x / b;
    assert x == b * (x / b) + x % b;
    assert b * m == x - b * (x / b);
    if m > 0 {
      assert b * m == b + b * (m - 1);
    } else if m < 0 {
      assert b * m == -b + b * (m + 1);
    }
  }

  /** `formatDuration(seconds)` for a whole number of seconds:
      `${Math.floor(seconds / 60)}:${(seconds % 60).toString().padStart(2, '0')}`.
      For a positive divisor Dafny's `/` is the floor division. */
  function FormatDuration(seconds: int): string
  {
    IntToString(seconds / 60) + ":" + PadStart2(IntToString(JsRemainder(seconds, 60)))
  }

  /** The first position of `c` in `t`, if any. */
  function IndexOf(t: string, c: char): (r: Option<nat>)
    ensures r.Some? ==> r.value < |t| && t[r.value] == c && c !in t[..r.value]
    ensures r.None? ==> c !in t
  {
    if t == [] then None
    else if t[0] == c then Some(0)
    else match IndexOf(t[1..], c)
      case None => None
      case Some(i) => assert t[..i + 1] == [t[0]] + t[1..][..i]; Some(i + 1)
  }

  /** Reads an `m:ss` text back into minutes and seconds: digits, a colon,
      exactly two digits. */
  function ParseDuration(t: string): Option<(nat, nat)>
  {
    match IndexOf(t, ':')
    case None => None
    case Some(i) =>
      if |t| != i + 3 then None
      else match (ParseNat(t[..i]), ParseNat(t[i + 1..]))
        case (Some(m), Some(s)) => Some((m, s))
        case _ => None
  }

  lemma IndexOfAfterDigits(a: string, b: string)
    requires AllDigits(a)
    ensures IndexOf(a + ":" + b, ':') == Some(|a|)
  {
    var t := a + ":" + b;
    assert t[|a|] == ':';
    assert t[..|a|] == a;
    assert ':' !in a by {
      forall k | 0 <= k < |a| ensures a[k] != ':' { assert IsDigit(a[k]); }
    }
  }

  /** The seconds field printed for `0 <= n < 60`: two digits worth `n`. */
  lemma SecondsField(n: nat)
    requires n < 60
    ensures |PadStart2(IntToString(n))| == 2
    ensures ParseNat(PadStart2(IntToString(n))) == Some(n)
  {
    NatToStringDigits(n);
    var s := NatToString(n);
    if n < 10 {
      var p := "0" + s;
      assert PadStart2(s) == p;
      assert p[..1] == "0" && p[1] == s[0];
      assert AllDigits(p);
      assert DigitsValue(p[..1]) == 0;
      assert DigitsValue(s) == DigitValue(s[0]) by { assert s[..0] == []; }
    } else {
      assert s == NatToString(n / 10) + [DigitChar(n % 10)];
      NatToStringDigits(n / 10);
      assert |s| == 2;
    }
  }

  /** For a non-negative number of seconds the text reads back as the whole
      minutes (not wrapped into hours) and a two-digit seconds field below 60,
      and `minutes * 60 + seconds` gives the input back. */
  lemma {:induction false} FormatDurationRoundTrip(s: nat)
    ensures ParseDuration(FormatDuration(s)) == Some((s / 60, s % 60))
    ensures (s / 60) * 60 + s % 60 == s && s % 60 < 60
  {
    var mins := NatToString(s / 60);
    var secs := PadStart2(IntToString(JsRemainder(s, 60)));
    assert FormatDuration(s) == mins + ":" + secs;
    NatToStringDigits(s / 60);
    SecondsField(s % 60);
    IndexOfAfterDigits(mins, secs);
    var t := mins + ":" + secs;
    assert t[..|mins|] == mins;
    assert t[|mins| + 1..] == secs;
    ParseNatToString(s / 60);
  }

  /** `result.duration ? formatDuration(result.duration) : 'N/A'`: a duration of
      0, or none, shows as `N/A`; any other is formatted. */
  function DurationLabel(duration: Option<int>): (shown: string)
    ensures shown == "N/A" <==> duration.None? || duration.value == 0
    ensures duration.Some? && duration.value != 0 ==> shown == FormatDuration(duration.value)
  {
    if duration.None? || duration.value == 0 then "N/A"
    else
      NatToStringDigits(if duration.value / 60 < 0 then -(duration.value / 60) else duration.value / 60);
      assert |FormatDuration(duration.value)| >= 4;
      FormatDuration(duration.value)
  }

  lemma FormatDurationExamples()
    ensures FormatDuration(42) == "0:42"
    ensures FormatDuration(65) == "1:05"
    ensures FormatDuration(3725) == "62:05"
    ensures FormatDuration(-5) == "-1:-5"
  {
    assert NatToString(62) == "62" by { assert NatToString(6) == "6"; }
  }

  /** How `videoApi.fetchVideo` ends: with the response, or by throwing an
      `Error` with `message`. */
  datatype FetchOutcome = Fetched(response: VideoResponse) | Rejected(message: string)

  /** The component's state: the URL field and the three variables a
      submission changes. */
  class Fetcher {
    var youtubeUrl: string
    var loading: bool
    var error: string
    var result: Option<VideoResponse>

    constructor ()
      ensures youtubeUrl == "" && !loading && error == "" && result == None
    {
      youtubeUrl, loading, error, result := "", false, "", None;
    }

    /** `disabled={loading || !youtubeUrl}` of the submit button. */
    predicate SubmitDisabled()
      reads this
    {
      loading || youtubeUrl == ""
    }

    /** The input's `onChange`. */
    method SetUrl(u: string)
      modifies this
      ensures youtubeUrl == u && loading == old(loading) && error == old(error) && result == old(result)
    {
      youtubeUrl := u;
    }

    /** The first three steps of `handleSubmit`: while the request is in
        flight the button is disabled and no earlier error or result shows. */
    method BeginSubmit()
      modifies this
      ensures loading && error == "" && result == None && youtubeUrl == old(youtubeUrl)
      ensures SubmitDisabled()
    {
      loading := true;
      error := "";
      result := None;
    }

    /** The `try`/`catch`/`finally` tail of `handleSubmit`. */
    method FinishSubmit(outcome: FetchOutcome)
      modifies this
      ensures !loading && youtubeUrl == old(youtubeUrl)
      ensures outcome.Fetched? ==> result == Some(outcome.response) && error == old(error)
      ensures outcome.Rejected? ==> error == outcome.message && result == old(result)
    {
      match outcome {
        case Fetched(response) => result := Some(response);
        case Rejected(message) => error := message;
      }
      loading := false;
    }

    /** `handleSubmit`: afterwards nothing is loading and exactly one of the
        result and the error is set (an error counts as set when its message is
        not empty, as the rendering tests it). */
    method HandleSubmit(outcome: FetchOutcome)
      modifies this
      ensures !loading && youtubeUrl == old(youtubeUrl)
      ensures outcome.Fetched? ==> result == Some(outcome.response) && error == ""
      ensures outcome.Rejected? ==> result == None && error == outcome.message
      ensures outcome.Fetched? || outcome.message != "" ==> (result.Some? <==> error == "")
    {
      BeginSubmit();
      FinishSubmit(outcome);
    }
  }
}
