// The editorial video player (components/EditorialVideoPlayer.tsx): its
// time formatter, the zero-padded index labels, the overlay rule, and the
// state its event handlers change. JavaScript numbers that may be NaN or
// Infinity are a datatype; everything else is `real`.

module EditorialPlayer {
  import opened Text

  /** A media time or duration as the element reports it. */
  datatype Num = Finite(v: real) | Infinite | NotANumber

  /** Math.trunc. */
  function Trunc(x: real): (n: int)
    ensures x >= 0.0 ==> n == x.Floor
    ensures x < 0.0 ==> n == -((-x).Floor)
  {
    if x >= 0.0 then x.Floor else -((-x).Floor)
  }

  /** JavaScript's x % n: the remainder keeps the sign of x. */
  function JsRem(x: real, n: real): (r: real)
    requires n != 0.0
    ensures x >= 0.0 && n > 0.0 ==> 0.0 <= r < n
    ensures x <= 0.0 && n > 0.0 ==> -n < r <= 0.0
  {
    if n > 0.0 then RemBounds(x, n); x - n * Trunc(x / n) as real
    else x - n * Trunc(x / n) as real
  }

  /** For a positive divisor the truncated remainder lies strictly within n of 0, on the side of x. */
  lemma RemBounds(x: real, n: real)
    requires n > 0.0
    ensures x >= 0.0 ==> 0.0 <= x - n * Trunc(x / n) as real < n
    ensures x <= 0.0 ==> -n < x - n * Trunc(x / n) as real <= 0.0
  {
    QuotientSign(x, n);
    if x >= 0.0 {
      Below(x, n, Trunc(x / n) as real);
    }
    if x <= 0.0 {
      Above(x, n, Trunc(x / n) as real);
    }
  }

  /** x - n·k for k the whole part of a non-negative x/n lies in [0, n). */
  lemma Below(x: real, n: real, k: real)
    requires n > 0.0 && k <= x / n < k + 1.0
    ensures 0.0 <= x - n * k < n
  {
    var f := x / n - k;
    Factor(x, n, k);
    ScaledFraction(n, f);
    assert x - n * k == n * f;
    assert n * f < n;
  }

  /** x - n·k for k the whole part of a non-positive x/n lies in (-n, 0]. */
  lemma Above(x: real, n: real, k: real)
    requires n > 0.0 && k - 1.0 < x / n <= k
    ensures -n < x - n * k <= 0.0
  {
    var f := k - x / n;
    Factor(x, n, k);
    ScaledFraction(n, f);
    assert x - n * k == -(n * f);
  }

  /** x/n has the sign of x when n is positive. */
  lemma QuotientSign(x: real, n: real)
    requires n > 0.0
    ensures x >= 0.0 ==> x / n >= 0.0
    ensures x <= 0.0 ==> x / n <= 0.0
  {
    assert n * (x / n) == x;
  }

  /** x - n·k == n·(x/n - k). */
  lemma Factor(x: real, n: real, k: real)
    requires n > 0.0
    ensures x - n * k == n * (x / n - k)
  {
    assert n * (x / n) == x;
  }

  /** n·f for a fraction f in [0, 1) lies in [0, n). */
  lemma ScaledFraction(n: real, f: real)
    requires n > 0.0 && 0.0 <= f < 1.0
    ensures 0.0 <= n * f < n
  {
    assert n - n * f == n * (1.0 - f);
  }

  /** Math.floor(s / 60). */
  function Minutes(s: real): (m: int)
    ensures m as real * 60.0 <= s < m as real * 60.0 + 60.0
  {
    (s / 60.0).Floor
  }

  /** Math.floor(s % 60). */
  function Seconds(s: real): (r: int)
    ensures s >= 0.0 ==> 0 <= r < 60
  {
    JsRem(s, 60.0).Floor
  }

  /** String(mins) + ":" + String(secs).padStart(2, "0"). */
  function MinutesColonSeconds(mins: int, secs: int): string
  {
    IntToString(mins) + ":" + PadStart(IntToString(secs), 2, '0')
  }

  /** formatTime: "0:00" for 0, NaN and ±Infinity; otherwise minutes, a colon and padded seconds. */
  function FormatTime(seconds: Num): (r: string)
    ensures !seconds.Finite? || seconds.v == 0.0 ==> r == "0:00"
  {
    if seconds.Finite? && seconds.v != 0.0 then MinutesColonSeconds(Minutes(seconds.v), Seconds(seconds.v))
    else "0:00"
  }

  /** For s >= 0: the minutes are non-negative, the seconds in [0, 59], and mins * 60 + secs == floor(s). */
  lemma MinutesAndSeconds(s: real)
    requires s >= 0.0
    ensures Minutes(s) >= 0
    ensures 0 <= Seconds(s) <= 59
    ensures Minutes(s) * 60 + Seconds(s) == s.Floor
  {
    var m := (s / 60.0).Floor;
    assert m as real <= s / 60.0 < m as real + 1.0;
    var rem := s - 60.0 * m as real;
    assert JsRem(s, 60.0) == rem;
    assert 0.0 <= rem < 60.0;
    assert (rem + 60.0 * m as real).Floor == rem.Floor + 60 * m;
  }

  /** With non-negative parts, the string is the decimal minutes, a colon and two digits of seconds. */
  lemma MinutesColonSecondsDigits(m: nat, sec: nat)
    requires sec <= 59
    ensures var ss := PadStart(NatToString(sec), 2, '0');
      MinutesColonSeconds(m, sec) == NatToString(m) + ":" + ss && |ss| == 2 && AllDigits(ss)
  {
    ParsePadded(sec);
  }

  /** For positive finite s the output is "m:ss": decimal minutes, a colon, then exactly two digits of seconds. */
  lemma FormatTimeShape(s: real)
    requires s > 0.0
    ensures var m := Minutes(s); var sec := Seconds(s);
      m >= 0 && 0 <= sec <= 59 &&
      var ss := PadStart(NatToString(sec), 2, '0');
      FormatTime(Finite(s)) == NatToString(m) + ":" + ss && |ss| == 2 && AllDigits(ss)
  {
    MinutesAndSeconds(s);
    MinutesColonSecondsDigits(Minutes(s), Seconds(s));
  }

  /** Two digit strings joined by a colon split back into strings that parse to the same numbers. */
  lemma ReadMinutes(a: string, b: string)
    requires AllDigits(a) && AllDigits(b)
    ensures var p := Split(a + ":" + b, ':');
      |p| == 2 && AllDigits(p[0]) && AllDigits(p[1]) &&
      ParseDecimal(p[0]) == ParseDecimal(a) && ParseDecimal(p[1]) == ParseDecimal(b)
  {
    assert ':' !in a && ':' !in b;
    assert a + ":" + b == a + [':'] + b;
    SplitTwo(a, b, ':');
  }

  /** Reading "m:ss" back as m * 60 + ss gives the whole seconds of the input. */
  lemma FormatTimeRoundTrip(s: real)
    requires s > 0.0
    ensures var parts := Split(FormatTime(Finite(s)), ':');
      |parts| == 2 && AllDigits(parts[0]) && AllDigits(parts[1]) &&
      ParseDecimal(parts[0]) * 60 + ParseDecimal(parts[1]) == s.Floor
  {
    FormatTimeShape(s);
    var m: nat := Minutes(s);
    var sec: nat := Seconds(s);
    ParseNatToString(m);
    ParsePadded(sec);
    ReadMinutes(NatToString(m), PadStart(NatToString(sec), 2, '0'));
    MinutesAndSeconds(s);
  }

  /** The "07" / "13" labels: String(n).padStart(2, "0"). */
  function IndexLabel(n: nat): (s: string)
    ensures |s| >= 2 && AllDigits(s)
    ensures n < 10 ==> s == ['0', DigitChar(n)]
    ensures n >= 10 ==> s == NatToString(n)
  {
    ParsePadded(n);
    PadStart(NatToString(n), 2, '0')
  }

  /** A label reads back as its number. */
  lemma IndexLabelParses(n: nat)
    ensures ParseDecimal(IndexLabel(n)) == n
  {
    ParsePadded(n);
  }

  /** showOverlay: the tap toggle on touch devices, the hover flag otherwise. */
  function ShowOverlay(isTouchDevice: bool, mobileVisible: bool, hovered: bool): (show: bool)
    ensures isTouchDevice ==> (show <==> mobileVisible)
    ensures !isTouchDevice ==> (show <==> hovered)
  {
    if isTouchDevice then mobileVisible else hovered
  }

  /** Progress in percent: 0..100 while the playhead lies within the duration. */
  lemma ProgressInRange(currentTime: real, duration: real)
    requires duration > 0.0 && 0.0 <= currentTime <= duration
    ensures 0.0 <= (currentTime / duration) * 100.0 <= 100.0
  {
    var q := currentTime / duration;
    assert q * duration == currentTime;
  }

  /** The component's state and the parts of its video element it reads and writes. */
  class Player {
    var isHovered: bool
    var isPlaying: bool
    var isMuted: bool
    var progress: real
    var currentTime: real
    var duration: real
    var isMobileOverlayVisible: bool
    var isTouchDevice: bool

    var videoMuted: bool
    var videoPaused: bool
    var videoCurrentTime: real
    var videoDuration: Num

    /** The initial state of the hooks, with a muted element before metadata loads. */
    constructor ()
      ensures !isHovered && isPlaying && isMuted && progress == 0.0 && currentTime == 0.0 && duration == 0.0
      ensures !isMobileOverlayVisible && !isTouchDevice
      ensures videoMuted && videoPaused && videoCurrentTime == 0.0 && videoDuration == NotANumber
    {
      isHovered := false;
      isPlaying := true;
      isMuted := true;
      progress := 0.0;
      currentTime := 0.0;
      duration := 0.0;
      isMobileOverlayVisible := false;
      isTouchDevice := false;
      videoMuted := true;
      videoPaused := true;
      videoCurrentTime := 0.0;
      videoDuration := NotANumber;
    }

    /** The mount effect's touch detection. */
    method DetectTouch(hasTouch: bool)
      modifies this
      ensures isTouchDevice == hasTouch
      ensures isHovered == old(isHovered) && isPlaying == old(isPlaying) && isMuted == old(isMuted)
      ensures progress == old(progress) && currentTime == old(currentTime) && duration == old(duration)
      ensures isMobileOverlayVisible == old(isMobileOverlayVisible) && videoMuted == old(videoMuted) && videoPaused == old(videoPaused)
      ensures videoCurrentTime == old(videoCurrentTime) && videoDuration == old(videoDuration)
    {
      isTouchDevice := hasTouch;
    }

    /** timeupdate: only when the duration is truthy (not 0, not NaN). */
    method UpdateProgress()
      modifies this
      ensures videoDuration.NotANumber? || videoDuration == Finite(0.0) ==>
        progress == old(progress) && currentTime == old(currentTime)
      ensures videoDuration.Finite? && videoDuration.v != 0.0 ==>
        progress == (videoCurrentTime / videoDuration.v) * 100.0 && currentTime == videoCurrentTime
      ensures videoDuration.Infinite? ==> progress == 0.0 && currentTime == videoCurrentTime
      ensures isHovered == old(isHovered) && isPlaying == old(isPlaying) && isMuted == old(isMuted)
      ensures duration == old(duration) && isMobileOverlayVisible == old(isMobileOverlayVisible) && isTouchDevice == old(isTouchDevice)
      ensures videoMuted == old(videoMuted) && videoPaused == old(videoPaused) && videoCurrentTime == old(videoCurrentTime)
      ensures videoDuration == old(videoDuration)
    {
      match videoDuration {
        case Finite(d) =>
          if d != 0.0 {
            progress := (videoCurrentTime / d) * 100.0;
            currentTime := videoCurrentTime;
          }
        case Infinite =>
          // a finite time divided by Infinity is 0
          progress := 0.0;
          currentTime := videoCurrentTime;
        case NotANumber =>
      }
    }

    /** loadedmetadata / durationchange: only a finite, non-zero duration is taken. */
    method UpdateDuration()
      modifies this
      ensures videoDuration.Finite? && videoDuration.v != 0.0 ==> duration == videoDuration.v
      ensures !(videoDuration.Finite? && videoDuration.v != 0.0) ==> duration == old(duration)
      ensures isHovered == old(isHovered) && isPlaying == old(isPlaying) && isMuted == old(isMuted)
      ensures progress == old(progress) && currentTime == old(currentTime) && isMobileOverlayVisible == old(isMobileOverlayVisible)
      ensures isTouchDevice == old(isTouchDevice) && videoMuted == old(videoMuted) && videoPaused == old(videoPaused)
      ensures videoCurrentTime == old(videoCurrentTime) && videoDuration == old(videoDuration)
    {
      if videoDuration.Finite? && videoDuration.v != 0.0 {
        duration := videoDuration.v;
      }
    }

    /** The play/pause button: play when paused, pause otherwise. */
    method PlayPause()
      modifies this
      ensures videoPaused == !old(videoPaused)
      ensures isHovered == old(isHovered) && isPlaying == old(isPlaying) && isMuted == old(isMuted)
      ensures progress == old(progress) && currentTime == old(currentTime) && duration == old(duration)
      ensures isMobileOverlayVisible == old(isMobileOverlayVisible) && isTouchDevice == old(isTouchDevice) && videoMuted == old(videoMuted)
      ensures videoCurrentTime == old(videoCurrentTime) && videoDuration == old(videoDuration)
    {
      if videoPaused {
        videoPaused := false;
      } else {
        videoPaused := true;
      }
    }

    /** The element's play and pause events keep isPlaying in step. */
    method OnPlayEvent()
      modifies this
      ensures isPlaying
      ensures isHovered == old(isHovered) && isMuted == old(isMuted) && progress == old(progress)
      ensures currentTime == old(currentTime) && duration == old(duration) && isMobileOverlayVisible == old(isMobileOverlayVisible)
      ensures isTouchDevice == old(isTouchDevice) && videoMuted == old(videoMuted) && videoPaused == old(videoPaused)
      ensures videoCurrentTime == old(videoCurrentTime) && videoDuration == old(videoDuration)
    {
      isPlaying := true;
    }

    method OnPauseEvent()
      modifies this
      ensures !isPlaying
      ensures isHovered == old(isHovered) && isMuted == old(isMuted) && progress == old(progress)
      ensures currentTime == old(currentTime) && duration == old(duration) && isMobileOverlayVisible == old(isMobileOverlayVisible)
      ensures isTouchDevice == old(isTouchDevice) && videoMuted == old(videoMuted) && videoPaused == old(videoPaused)
      ensures videoCurrentTime == old(videoCurrentTime) && videoDuration == old(videoDuration)
    {
      isPlaying := false;
    }

    /** The mute button: flip the element's muted flag and mirror it. */
    method MuteToggle()
      modifies this
      ensures videoMuted == !old(videoMuted) && isMuted == videoMuted
      ensures isHovered == old(isHovered) && isPlaying == old(isPlaying) && progress == old(progress)
      ensures currentTime == old(currentTime) && duration == old(duration) && isMobileOverlayVisible == old(isMobileOverlayVisible)
      ensures isTouchDevice == old(isTouchDevice) && videoPaused == old(videoPaused) && videoCurrentTime == old(videoCurrentTime)
      ensures videoDuration == old(videoDuration)
    {
      videoMuted := !videoMuted;
      isMuted := videoMuted;
    }

    /** A tap on the container: only on touch devices, and not on a control button, flips the overlay. */
    method ContainerClick(onControlButton: bool)
      modifies this
      ensures !isTouchDevice || onControlButton ==> isMobileOverlayVisible == old(isMobileOverlayVisible)
      ensures isTouchDevice && !onControlButton ==> isMobileOverlayVisible == !old(isMobileOverlayVisible)
      ensures isHovered == old(isHovered) && isPlaying == old(isPlaying) && isMuted == old(isMuted)
      ensures progress == old(progress) && currentTime == old(currentTime) && duration == old(duration)
      ensures isTouchDevice == old(isTouchDevice) && videoMuted == old(videoMuted) && videoPaused == old(videoPaused)
      ensures videoCurrentTime == old(videoCurrentTime) && videoDuration == old(videoDuration)
    {
      if !isTouchDevice {
        return;
      }
      if onControlButton {
        return;
      }
      isMobileOverlayVisible := !isMobileOverlayVisible;
    }

    /** mouseenter and mouseleave set the hover flag, on non-touch devices only. */
    method MouseEnter()
      modifies this
      ensures isHovered == (if isTouchDevice then old(isHovered) else true)
      ensures isPlaying == old(isPlaying) && isMuted == old(isMuted) && progress == old(progress)
      ensures currentTime == old(currentTime) && duration == old(duration) && isMobileOverlayVisible == old(isMobileOverlayVisible)
      ensures isTouchDevice == old(isTouchDevice) && videoMuted == old(videoMuted) && videoPaused == old(videoPaused)
      ensures videoCurrentTime == old(videoCurrentTime) && videoDuration == old(videoDuration)
    {
      if !isTouchDevice {
        isHovered := true;
      }
    }

    method MouseLeave()
      modifies this
      ensures isHovered == (if isTouchDevice then old(isHovered) else false)
      ensures isPlaying == old(isPlaying) && isMuted == old(isMuted) && progress == old(progress)
      ensures currentTime == old(currentTime) && duration == old(duration) && isMobileOverlayVisible == old(isMobileOverlayVisible)
      ensures isTouchDevice == old(isTouchDevice) && videoMuted == old(videoMuted) && videoPaused == old(videoPaused)
      ensures videoCurrentTime == old(videoCurrentTime) && videoDuration == old(videoDuration)
    {
      if !isTouchDevice {
        isHovered := false;
      }
    }

    /** Whether the overlay shows in the current state. */
    function Overlay(): (show: bool)
      reads this
      ensures show == ShowOverlay(isTouchDevice, isMobileOverlayVisible, isHovered)
    {
      if isTouchDevice then isMobileOverlayVisible else isHovered
    }
  }
}
