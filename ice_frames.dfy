/** The frame-playback state of src/hooks/useIceFrames.js: the loaded
    frame list, the current index, play/pause, the speed reference and the
    last animation tick. React state and refs become fields; the effects'
    re-runs become explicit resets of the last tick. */
module IceFrames {
  import opened Wrappers

  const MinFps: real := 0.1
  const MaxFps: real := 12.0
  const LoadFailed: string := "Failed to load frames"

  /** `Math.max(0.1, Math.min(12, fps || 1))`; `None` stands for the falsy
      non-numbers (undefined, null, NaN). */
  function SpeedFor(fps: Option<real>): (s: real)
    ensures MinFps <= s <= MaxFps
    ensures fps.None? || fps == Some(0.0) ==> s == 1.0
    ensures fps.Some? && MinFps <= fps.value <= MaxFps ==> s == fps.value
    ensures fps.Some? && fps.value > MaxFps ==> s == MaxFps
    ensures fps.Some? && fps.value != 0.0 && fps.value < MinFps ==> s == MinFps
  {
    var f := if fps.None? || fps.value == 0.0 then 1.0 else fps.value;
    var upper := if MaxFps <= f then MaxFps else f;
    if MinFps >= upper then MinFps else upper
  }

  /** Clamping a stored speed again changes nothing. */
  lemma SpeedForIdempotent(fps: Option<real>)
    ensures SpeedFor(Some(SpeedFor(fps))) == SpeedFor(fps)
  {
  }

  /** The index after a load: the middle frame ("now"), or 0 for none. */
  function CenterIndex(n: nat): (i: nat)
    ensures n == 0 ==> i == 0
    ensures n > 0 ==> i < n && (2 * i == n || 2 * i + 1 == n)
  {
    if n > 0 then n / 2 else 0
  }

  lemma MulAtLeast(n: nat, q: int)
    requires q >= 1
    ensures n * q >= n
  {
    assert n * q == n * (q - 1) + n;
  }

  lemma MulNegative(n: nat, q: int)
    requires n > 0 && q <= -1
    ensures n * q <= -(n as int)
  {
    assert n * q == n * (q + 1) - n;
  }

  /** The remainder of a number already below the divisor is itself. */
  lemma ModSmall(a: int, n: nat)
    requires 0 <= a < n
    ensures a % n == a
  {
    var q := a / n;
    assert a == n * q + a % n;
    if q >= 1 {
      MulAtLeast(n, q);
    } else if q <= -1 {
      MulNegative(n, q);
    }
  }

  lemma ModSelf(n: nat)
    requires n > 0
    ensures n % n == 0
  {
    var q := n / n;
    assert n == n * q + n % n;
    if q >= 2 {
      MulAtLeast(n, q - 1);
    } else if q <= 0 {
      if q <= -1 {
        MulNegative(n, q);
      }
    }
  }

  /** JavaScript's `%`, whose result takes the sign of the dividend. */
  function JsRem(a: int, n: nat): (r: int)
    requires n > 0
    ensures 0 <= a < n ==> r == a
    ensures a == n ==> r == 0
    ensures a >= 0 ==> 0 <= r < n
    ensures a < 0 ==> -(n as int) < r <= 0
  {
    if 0 <= a < n then ModSmall(a, n); a % n
    else if a == n then ModSelf(n); a % n
    else if a >= 0 then a % n
    else -((-a) % n)
  }

  /** The functional index update of one advancing tick. */
  function Advance(i: int, n: nat): (r: int)
    ensures n == 0 ==> r == 0
    ensures n > 0 && -1 <= i ==> 0 <= r < n
    ensures n > 0 && -1 <= i < n - 1 ==> r == i + 1
    ensures n > 0 && i == n - 1 ==> r == 0
  {
    if n == 0 then 0 else JsRem(i + 1, n)
  }

  function AdvanceTimes(i: int, n: nat, k: nat): int {
    if k == 0 then i else Advance(AdvanceTimes(i, n, k - 1), n)
  }

  /** From an index in range, k <= n advancing ticks land on `i + k`
      wrapped once past the end, so n of them come back to the start. */
  lemma {:induction false} AdvanceTimesWraps(i: int, n: nat, k: nat)
    requires 0 <= i < n && k <= n
    ensures AdvanceTimes(i, n, k) == if i + k < n then i + k else i + k - n
    ensures k == n ==> AdvanceTimes(i, n, k) == i
  {
    if k > 0 {
      AdvanceTimesWraps(i, n, k - 1);
    }
  }

  /** The animation clock: the index and `lastTickRef`. */
  datatype Clock = Clock(index: int, lastTick: real)

  /** One `requestAnimationFrame` callback at time `ts`, or nothing when the
      loop is not running (paused, or no frames). A last tick of 0 is unset
      and is taken from `ts`; the index advances once at least
      `1000 / speed` ms have passed since the last advance, which then
      becomes `ts`. */
  function TickStep(playing: bool, n: nat, speed: real, c: Clock, ts: real): (c': Clock)
    requires speed > 0.0
    ensures !playing || n == 0 ==> c' == c
    ensures c'.index == c.index || c'.index == Advance(c.index, n)
    ensures c'.index != c.index ==> c'.lastTick == ts
    ensures 0 <= c.index < n ==> 0 <= c'.index < n
    ensures playing && n > 0 && c.lastTick != 0.0 && ts - c.lastTick < 1000.0 / speed ==> c' == c
    ensures playing && n > 0 && c.lastTick != 0.0 && ts - c.lastTick >= 1000.0 / speed ==>
              c' == Clock(Advance(c.index, n), ts)
    ensures playing && n > 0 && c.lastTick == 0.0 ==> c'.index == c.index && c'.lastTick == ts
  {
    if !playing || n == 0 then c
    else
      var last := if c.lastTick == 0.0 then ts else c.lastTick;
      if ts - last >= 1000.0 / speed then Clock(Advance(c.index, n), ts)
      else Clock(c.index, last)
  }

  /** The first tick after a (re)start only records the time. */
  lemma FirstTickWaits(n: nat, speed: real, i: int, ts: real)
    requires speed > 0.0 && n > 0
    ensures TickStep(true, n, speed, Clock(i, 0.0), ts) == Clock(i, ts)
  {
  }

  /** `frames[index] || null`: missing entries and empty strings read null. */
  function FrameAt(frames: seq<string>, index: int): (t: Option<string>)
    ensures t.Some? <==> 0 <= index < |frames| && frames[index] != ""
    ensures t.Some? ==> t.value == frames[index]
  {
    if 0 <= index < |frames| && frames[index] != "" then Some(frames[index]) else None
  }

  /** After a successful load of non-empty timestamps the current time is
      the middle one. */
  lemma LoadedShowsMiddle(arr: seq<string>)
    requires arr != [] && forall k :: 0 <= k < |arr| ==> arr[k] != ""
    ensures FrameAt(arr, CenterIndex(|arr|)) == Some(arr[|arr| / 2])
  {
  }

  class Player {
    var frames: seq<string>
    var loading: bool
    var error: Option<string>
    var index: int
    var playing: bool
    var speed: real
    var lastTick: real

    ghost predicate Valid()
      reads this
    {
      MinFps <= speed <= MaxFps
    }

    /** The hook's initial state. */
    constructor ()
      ensures Valid()
      ensures frames == [] && loading && error.None? && index == 0 && !playing
      ensures speed == 1.0 && lastTick == 0.0
    {
      frames, loading, error, index, playing := [], true, None, 0, false;
      speed, lastTick := 1.0, 0.0;
    }

    /** `currentTime`. */
    function CurrentTime(): (t: Option<string>)
      reads this
      ensures t.Some? ==> t.value in frames
      ensures 0 <= index < |frames| && frames[index] != "" ==> t == Some(frames[index])
    {
      FrameAt(frames, index)
    }

    /** The playback effect depends on `playing` and the frame count: when
        either changes it is torn down and restarted, resetting the tick. */
    method Restart(wasPlaying: bool, oldCount: nat)
      requires Valid()
      modifies this
      ensures Valid()
      ensures frames == old(frames) && index == old(index) && playing == old(playing)
      ensures loading == old(loading) && error == old(error) && speed == old(speed)
      ensures lastTick == if wasPlaying != playing || oldCount != |frames| then 0.0 else old(lastTick)
    {
      if wasPlaying != playing || oldCount != |frames| {
        lastTick := 0.0;
      }
    }

    /** The start of a load: loading on, error cleared. */
    method BeginLoad()
      requires Valid()
      modifies this
      ensures Valid()
      ensures loading && error.None?
      ensures frames == old(frames) && index == old(index) && playing == old(playing)
      ensures speed == old(speed) && lastTick == old(lastTick)
    {
      loading := true;
      error := None;
    }

    /** A resolved `listFrames`: `d?.frames || []`, centred. */
    method OnLoaded(d: Option<seq<string>>)
      requires Valid()
      modifies this
      ensures Valid()
      ensures frames == d.GetOr([]) && index == CenterIndex(|frames|) && !loading
      ensures error == old(error) && playing == old(playing) && speed == old(speed)
      ensures lastTick == if |frames| != |old(frames)| then 0.0 else old(lastTick)
    {
      var n := |frames|;
      frames := d.GetOr([]);
      index := if |frames| > 0 then |frames| / 2 else 0;
      loading := false;
      Restart(playing, n);
    }

    /** A rejected `listFrames`: the message (or the default for a missing
        or empty one), no frames, index 0. */
    method OnLoadError(message: Option<string>)
      requires Valid()
      modifies this
      ensures Valid()
      ensures error == Some(if message.None? || message.value == "" then LoadFailed else message.value)
      ensures frames == [] && index == 0 && !loading
      ensures playing == old(playing) && speed == old(speed)
      ensures lastTick == if |old(frames)| != 0 then 0.0 else old(lastTick)
    {
      var n := |frames|;
      error := Some(if message.None? || message.value == "" then LoadFailed else message.value);
      frames := [];
      index := 0;
      loading := false;
      Restart(playing, n);
    }

    method SetSpeed(fps: Option<real>)
      requires Valid()
      modifies this
      ensures Valid()
      ensures speed == SpeedFor(fps)
      ensures frames == old(frames) && index == old(index) && playing == old(playing)
      ensures loading == old(loading) && error == old(error) && lastTick == old(lastTick)
    {
      speed := SpeedFor(fps);
    }

    method SetPlaying(p: bool)
      requires Valid()
      modifies this
      ensures Valid()
      ensures playing == p
      ensures frames == old(frames) && index == old(index) && speed == old(speed)
      ensures loading == old(loading) && error == old(error)
      ensures lastTick == if p != old(playing) then 0.0 else old(lastTick)
    {
      var was := playing;
      playing := p;
      Restart(was, |frames|);
    }

    method Play()
      requires Valid()
      modifies this
      ensures Valid() && playing
      ensures frames == old(frames) && index == old(index) && speed == old(speed)
      ensures loading == old(loading) && error == old(error)
      ensures lastTick == if !old(playing) then 0.0 else old(lastTick)
    {
      SetPlaying(true);
    }

    method Pause()
      requires Valid()
      modifies this
      ensures Valid() && !playing
      ensures frames == old(frames) && index == old(index) && speed == old(speed)
      ensures loading == old(loading) && error == old(error)
      ensures lastTick == if old(playing) then 0.0 else old(lastTick)
    {
      SetPlaying(false);
    }

    method Toggle()
      requires Valid()
      modifies this
      ensures Valid()
      ensures playing == !old(playing) && lastTick == 0.0
      ensures frames == old(frames) && index == old(index) && speed == old(speed)
      ensures loading == old(loading) && error == old(error)
    {
      SetPlaying(!playing);
    }

    /** The exported `setIndex`, which takes any number. */
    method SetIndex(i: int)
      requires Valid()
      modifies this
      ensures Valid() && index == i
      ensures frames == old(frames) && playing == old(playing) && speed == old(speed)
      ensures loading == old(loading) && error == old(error) && lastTick == old(lastTick)
    {
      index := i;
    }

    /** One animation-frame callback at time `ts`. */
    method Tick(ts: real)
      requires Valid()
      modifies this
      ensures Valid()
      ensures Clock(index, lastTick) == TickStep(playing, |frames|, speed, old(Clock(index, lastTick)), ts)
      ensures 0 <= old(index) < |frames| ==> 0 <= index < |frames|
      ensures frames == old(frames) && playing == old(playing) && speed == old(speed)
      ensures loading == old(loading) && error == old(error)
    {
      if !playing || |frames| == 0 {
        return;
      }
      if lastTick == 0.0 {
        lastTick := ts;
      }
      var dt := ts - lastTick;
      var msPerFrame := 1000.0 / speed;
      if dt >= msPerFrame {
        var n := |frames|;
        index := if n == 0 then 0 else JsRem(index + 1, n);
        lastTick := ts;
      }
    }
  }
}
