/** The periodic resize of the dynamic channel pool
    (google/cloud/bigtable/_channel_pooling/dynamic_pooled_channel.py):
    read each channel's peak since the last resize, derive how many
    channels that load wants, and move the pool size toward it by a
    bounded step. Channels are represented by their counters. */
module DynamicPool {
  import opened Wrappers
  import TrackedChannel

  type Channel = TrackedChannel.Counters

  /** `DynamicPoolOptions` (the refresh interval is left out). */
  datatype Options = Options(
    startSize: int,
    maxChannels: int,
    minChannels: int,
    maxRpcsPerChannel: int,
    minRpcsPerChannel: int,
    maxResizeDelta: int)

  const DefaultOptions: Options := Options(3, 10, 1, 100, 50, 2)

  /** Options that make sense: a non-empty size range and a non-negative
      step. */
  predicate Sane(o: Options) {
    0 <= o.minChannels <= o.maxChannels && 0 <= o.maxResizeDelta
  }

  function Min(a: int, b: int): int {
    if a <= b then a else b
  }

  function Max(a: int, b: int): int {
    if a >= b then a else b
  }

  /** Python's `a // b`, which rounds toward negative infinity; a zero
      divisor is a `ZeroDivisionError`. */
  function FloorDiv(a: int, b: int): (r: Result<int, string>)
    ensures r.Ok? <==> b != 0
    ensures r.Ok? && b > 0 ==> r.value * b <= a < r.value * b + b
    ensures r.Ok? && b < 0 ==> r.value * b >= a > r.value * b + b
  {
    if b == 0 then Err("ZeroDivisionError: integer division or modulo by zero")
    else if b > 0 then Ok(a / b)
    else Ok((-a) / (-b))
  }

  /** Python's `s[:k]` bound: a negative `k` counts from the end. */
  function SliceBound(k: int, n: nat): (j: nat)
    ensures j <= n
    ensures 0 <= k <= n ==> j == k
  {
    if k < 0 then Max(n + k, 0) else Min(k, n)
  }

  /** The pool: its channels and the round-robin position. */
  datatype Pool = Pool(channels: seq<Channel>, nextIdx: int)

  /** The sum of the channels' peaks, read and reset. */
  datatype Readings = Readings(channels: seq<Channel>, peak: int)

  /** The sum of the channels' recorded maxima. */
  function PeakSum(channels: seq<Channel>): int {
    if |channels| == 0 then 0 else channels[0].maxActive + PeakSum(channels[1..])
  }

  function ReadPeaks(channels: seq<Channel>): (r: Readings)
    ensures |r.channels| == |channels|
    ensures forall k :: 0 <= k < |channels| ==> r.channels[k] == TrackedChannel.GetAndReset(channels[k]).counters
    ensures r.peak == PeakSum(channels)
    ensures (forall k :: 0 <= k < |channels| ==> channels[k].maxActive >= 0) ==> r.peak >= 0
  {
    if |channels| == 0 then Readings([], 0)
    else
      var rest := ReadPeaks(channels[1..]);
      var first := TrackedChannel.GetAndReset(channels[0]);
      Readings([first.counters] + rest.channels, first.peak + rest.peak)
  }

  /** The size band the load asks for, and where inside it to aim. */
  datatype Band = Band(lower: int, upper: int)

  /** The two floor quotients of the load, each clamped by its own
      configured limit; the divisor of the lower one must not be zero. */
  function WrittenBand(peak: int, o: Options): (b: Band)
    requires o.maxRpcsPerChannel != 0
    ensures b.lower >= o.minChannels && b.upper <= o.maxChannels
    ensures o.maxRpcsPerChannel > 0 && b.lower > o.minChannels ==>
      b.lower * o.maxRpcsPerChannel <= peak < (b.lower + 1) * o.maxRpcsPerChannel
    ensures b.upper < o.maxChannels ==>
      b.upper * Max(o.minRpcsPerChannel, 1) <= peak < (b.upper + 1) * Max(o.minRpcsPerChannel, 1)
  {
    Band(Max(FloorDiv(peak, o.maxRpcsPerChannel).value, o.minChannels),
         Min(FloorDiv(peak, Max(o.minRpcsPerChannel, 1)).value, o.maxChannels))
  }

  /** The band as written: at least `peak // max_rpcs_per_channel` and
      `min_channels`, at most `peak // max(min_rpcs_per_channel, 1)` and
      `max_channels`; the two clamps are independent, so the band can be
      empty or lie outside the configured range. As intended
      (`!asWritten`) the band is kept inside the configured range. */
  function SizeBand(peak: int, o: Options, asWritten: bool): (r: Result<Band, string>)
    ensures r.Ok? <==> o.maxRpcsPerChannel != 0
    ensures r.Ok? && asWritten ==> r.value == WrittenBand(peak, o)
    ensures r.Ok? && !asWritten ==>
      && r.value.lower == Min(WrittenBand(peak, o).lower, o.maxChannels)
      && r.value.upper == Max(WrittenBand(peak, o).upper, r.value.lower)
    ensures (r.Ok? && !asWritten
             && o.minChannels <= WrittenBand(peak, o).lower <= WrittenBand(peak, o).upper <= o.maxChannels) ==>
      r.value == WrittenBand(peak, o)
    ensures r.Ok? && !asWritten && o.minChannels <= o.maxChannels ==>
      o.minChannels <= r.value.lower <= r.value.upper <= o.maxChannels
  {
    var least := FloorDiv(peak, o.maxRpcsPerChannel);
    var most := FloorDiv(peak, Max(o.minRpcsPerChannel, 1));
    if least.Err? then Err(least.error)
    else
      var lower := Max(least.value, o.minChannels);
      var upper := Min(most.value, o.maxChannels);
      if asWritten then Ok(Band(lower, upper))
      else
        var lo := Min(lower, o.maxChannels);
        Ok(Band(lo, Max(upper, lo)))
  }

  /** The size a resize aims for: unchanged inside the band; otherwise the
      band's midpoint when it is within `max_resize_delta`, and else
      `max_resize_delta` closer to it. A negative `max_resize_delta`
      moves the size by exactly that amount. */
  function NewSize(current: int, band: Band, maxDelta: int): (n: int)
    ensures band.lower <= current <= band.upper ==> n == current
    ensures 0 <= maxDelta ==> current - maxDelta <= n <= current + maxDelta
    ensures (current < band.lower || current > band.upper) && 0 <= maxDelta ==>
      var target := (band.lower + band.upper) / 2;
      && (current - maxDelta <= target <= current + maxDelta ==> n == target)
      && (target > current + maxDelta ==> n == current + maxDelta)
      && (target < current - maxDelta ==> n == current - maxDelta)
    ensures (current < band.lower || current > band.upper) && maxDelta < 0 ==> n == current + maxDelta
  {
    if current < band.lower || current > band.upper then
      var target := (band.upper + band.lower) / 2;
      current + Min(Max(target - current, -maxDelta), maxDelta)
    else current
  }

  /** A step never overshoots the midpoint it aims for. */
  lemma NewSizeTowardTarget(current: int, band: Band, maxDelta: int)
    requires 0 <= maxDelta
    ensures var n := NewSize(current, band, maxDelta);
      var target := (band.upper + band.lower) / 2;
      (current < band.lower || current > band.upper) ==>
        (current <= target ==> current <= n <= target) && (target <= current ==> target <= n <= current)
  {
  }

  /** The pool after a resize, and the channels added and removed. */
  datatype Resized = Resized(pool: Pool, added: seq<Channel>, removed: seq<Channel>)

  /** Bringing the pool to `target` channels. Growing appends fresh
      channels; shrinking cuts the list at the target (with Python's slice
      semantics), returns the cut channels, and resets the round-robin
      position when it falls outside the kept part. */
  function Reshape(channels: seq<Channel>, nextIdx: int, target: int): (r: Resized)
    ensures r.pool.channels + r.removed == channels + r.added
    ensures r.added == [] || r.removed == []
    ensures |r.added| == Max(target - |channels|, 0)
    ensures forall k :: 0 <= k < |r.added| ==> r.added[k] == TrackedChannel.New()
    ensures 0 <= target ==> |r.pool.channels| == target
    ensures r.removed != [] && nextIdx >= |r.pool.channels| ==> r.pool.nextIdx == 0
    ensures target >= |channels| ==> r.pool.nextIdx == nextIdx
  {
    var current := |channels|;
    if target > current then
      var added := seq(target - current, _ => TrackedChannel.New());
      Resized(Pool(channels + added, nextIdx), added, [])
    else if target < current then
      var cut := SliceBound(target, current);
      var next := if nextIdx >= target then 0 else nextIdx;
      assert channels[..cut] + channels[cut..] == channels;
      Resized(Pool(channels[..cut], next), [], channels[cut..])
    else
      Resized(Pool(channels, nextIdx), [], [])
  }

  /** A failed resize: the error, and the pool it leaves behind. */
  datatype ResizeFailure = ResizeFailure(message: string, pool: Pool)

  /** `_attempt_resize`: read the peaks, derive the band, and reshape the
      pool to the new size. A zero `max_rpcs_per_channel` raises after
      every channel's peak was already reset. */
  function AttemptResize(p: Pool, o: Options, asWritten: bool): (r: Result<Resized, ResizeFailure>)
    ensures r.Err? <==> o.maxRpcsPerChannel == 0
    ensures r.Err? ==> r.error.pool == Pool(ReadPeaks(p.channels).channels, p.nextIdx)
    ensures r.Ok? ==> r.value.pool.channels + r.value.removed == ReadPeaks(p.channels).channels + r.value.added
    ensures r.Ok? ==> (r.value.added == [] || r.value.removed == [])
    ensures r.Ok? ==> forall k :: 0 <= k < |r.value.added| ==> r.value.added[k] == TrackedChannel.New()
    ensures r.Ok? && r.value.removed != [] && p.nextIdx >= |r.value.pool.channels| ==> r.value.pool.nextIdx == 0
    ensures r.Ok? && r.value.added != [] ==> r.value.pool.nextIdx == p.nextIdx
    ensures r.Ok? ==> SizeBand(PeakSum(p.channels), o, asWritten).Ok?
    ensures r.Ok? ==> var n := NewSize(|p.channels|, SizeBand(PeakSum(p.channels), o, asWritten).value, o.maxResizeDelta);
      && (0 <= n ==> |r.value.pool.channels| == n)
      && |r.value.added| == Max(n - |p.channels|, 0)
  {
    var readings := ReadPeaks(p.channels);
    var band := SizeBand(readings.peak, o, asWritten);
    if band.Err? then Err(ResizeFailure(band.error, Pool(readings.channels, p.nextIdx)))
    else Ok(Reshape(readings.channels, p.nextIdx, NewSize(|readings.channels|, band.value, o.maxResizeDelta)))
  }

  /** A pool whose size is inside the band the load asks for is left as
      it is, apart from the reset peaks. */
  lemma ResizeInsideBandKeepsPool(p: Pool, o: Options, asWritten: bool)
    requires o.maxRpcsPerChannel != 0
    requires var b := SizeBand(ReadPeaks(p.channels).peak, o, asWritten).value;
      b.lower <= |p.channels| <= b.upper
    ensures AttemptResize(p, o, asWritten).value == Resized(Pool(ReadPeaks(p.channels).channels, p.nextIdx), [], [])
  {
  }

  /** With sane options, the intended resize keeps a pool that is within
      the configured size range inside it, and changes the size by at most
      the configured step. */
  lemma ResizeStaysInRange(p: Pool, o: Options)
    requires Sane(o) && o.maxRpcsPerChannel != 0
    requires o.minChannels <= |p.channels| <= o.maxChannels
    ensures var r := AttemptResize(p, o, false).value;
      o.minChannels <= |r.pool.channels| <= o.maxChannels
      && |p.channels| - o.maxResizeDelta <= |r.pool.channels| <= |p.channels| + o.maxResizeDelta
  {
    var readings := ReadPeaks(p.channels);
    var band := SizeBand(readings.peak, o, false).value;
    NewSizeTowardTarget(|p.channels|, band, o.maxResizeDelta);
  }

  /** As written, the default options shrink an idle one-channel pool to
      no channels at all, below `min_channels`; the intended band keeps
      the channel. */
  lemma ResizeBelowMinimumCounterexample()
    ensures var p := Pool([TrackedChannel.New()], 0);
      AttemptResize(p, DefaultOptions, true).Ok?
      && AttemptResize(p, DefaultOptions, true).value.pool.channels == []
      && |AttemptResize(p, DefaultOptions, false).value.pool.channels| == 1
  {
    var p := Pool([TrackedChannel.New()], 0);
    assert ReadPeaks(p.channels).peak == 0;
  }
}
