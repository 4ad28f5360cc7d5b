/** The frame-based voice activity detector: chunking does not matter, edges alternate and stay apart. */
module Vad {

  import opened Text

  datatype Edge = EdgeNone | SpeechStart | SpeechStop

  datatype Phase = Quiet | Starting | Speaking | Stopping

  // The settings as configured, zero meaning "use the default"; durations are in nanoseconds.
  datatype Settings = Settings(
    score: seq<byte> -> real,
    sampleRate: int,
    frameMS: int,
    startHold: int,
    stopHold: int,
    threshold: real,
    smoothing: real)
  {
    function SampleRate(): int { if sampleRate == 0 then 16000 else sampleRate }

    function FrameMS(): int { if frameMS == 0 then 20 else frameMS }

    function FrameBytes(): int { SampleRate() * FrameMS() / 1000 * 2 }

    function Threshold(): real { if threshold == 0.0 then 0.01 else threshold }

    function Smoothing(): real { if smoothing == 0.0 then 0.2 else smoothing }

    function StartFrames(): (n: int)
      requires FrameBytes() > 0
      ensures n >= 1
    {
      Frames(if startHold == 0 then 120_000_000 else startHold)
    }

    function StopFrames(): (n: int)
      requires FrameBytes() > 0
      ensures n >= 1
    {
      Frames(if stopHold == 0 then 250_000_000 else stopHold)
    }

    /** The hold in frames, rounded half away from zero, at least one. */
    function Frames(hold: int): (n: int)
      requires FrameBytes() > 0
      ensures n >= 1
    {
      FrameMSNotZero(this);
      var frames := Round(hold as real / 1_000_000.0 / FrameMS() as real);
      if frames < 1 then 1 else frames
    }
  }

  function Round(x: real): int {
    if x >= 0.0 then (x + 0.5).Floor else -(-x + 0.5).Floor
  }

  lemma FrameMSNotZero(c: Settings)
    requires c.FrameBytes() > 0
    ensures c.FrameMS() != 0
  {
  }

  // ----- one frame -----

  datatype State = State(smoothed: real, phase: Phase, startCount: int, stopCount: int)

  const INITIAL := State(0.0, Quiet, 0, 0)

  function Smoothed(c: Settings, s: State, raw: real): real {
    s.smoothed + c.Smoothing() * (raw - s.smoothed)
  }

  function AfterFrame(c: Settings, s: State, raw: real): (State, Edge)
    requires c.FrameBytes() > 0
  {
    var smoothed := Smoothed(c, s, raw);
    var s := s.(smoothed := smoothed);
    var speaking, energetic := smoothed >= c.Threshold(), raw >= c.Threshold();
    match s.phase
    case Quiet => if speaking then (s.(phase := Starting, startCount := 1), EdgeNone) else (s, EdgeNone)
    case Starting =>
      if !speaking then (s.(phase := Quiet, startCount := 0), EdgeNone)
      else if !energetic then (s, EdgeNone)
      else if s.startCount + 1 >= c.StartFrames() then (s.(phase := Speaking, startCount := 0), SpeechStart)
      else (s.(startCount := s.startCount + 1), EdgeNone)
    case Speaking => if !speaking then (s.(phase := Stopping, stopCount := 1), EdgeNone) else (s, EdgeNone)
    case Stopping =>
      if speaking then (s.(phase := Speaking, stopCount := 0), EdgeNone)
      else if s.stopCount + 1 >= c.StopFrames() then (s.(phase := Quiet, stopCount := 0), SpeechStop)
      else (s.(stopCount := s.stopCount + 1), EdgeNone)
  }

  // ----- many frames -----

  // Where a run over some bytes ends: the state, the bytes short of a frame, and the edge of every frame.
  datatype Fed = Fed(state: State, rest: seq<byte>, edges: seq<Edge>)

  function Feed(c: Settings, s: State, data: seq<byte>): (f: Fed)
    requires c.FrameBytes() > 0
    decreases |data|
  {
    var n := c.FrameBytes();
    if |data| < n then Fed(s, data, [])
    else
      var (next, edge) := AfterFrame(c, s, c.score(data[..n]));
      var f := Feed(c, next, data[n..]);
      Fed(f.state, f.rest, [edge] + f.edges)
  }

  /** Every whole frame is processed, and less than a frame is left. */
  lemma {:induction false} FeedSizes(c: Settings, s: State, data: seq<byte>)
    requires c.FrameBytes() > 0
    ensures var f := Feed(c, s, data);
            |data| == c.FrameBytes() * |f.edges| + |f.rest| && |f.rest| < c.FrameBytes()
              && f.rest == data[|data| - |f.rest|..]
    decreases |data|
  {
    hide AfterFrame, Settings.FrameBytes;
    var n := c.FrameBytes();
    if |data| >= n {
      var next := AfterFrame(c, s, c.score(data[..n])).0;
      FeedSizes(c, next, data[n..]);
      assert n * (|Feed(c, next, data[n..]).edges| + 1) == n * |Feed(c, next, data[n..]).edges| + n;
    }
  }

  lemma FeedUnfold(c: Settings, s: State, data: seq<byte>)
    requires c.FrameBytes() > 0
    ensures |data| < c.FrameBytes() ==> Feed(c, s, data) == Fed(s, data, [])
    ensures |data| >= c.FrameBytes() ==>
              var (next, edge) := AfterFrame(c, s, c.score(data[..c.FrameBytes()]));
              var f := Feed(c, next, data[c.FrameBytes()..]);
              Feed(c, s, data) == Fed(f.state, f.rest, [edge] + f.edges)
  {
    hide AfterFrame, Settings.FrameBytes;
  }

  /** Feeding a + b is feeding a, then what a left over followed by b. */
  lemma {:induction false} FeedInParts(c: Settings, s: State, a: seq<byte>, b: seq<byte>)
    requires c.FrameBytes() > 0
    ensures var f, g := Feed(c, s, a), Feed(c, s, a + b);
            var h := Feed(c, f.state, f.rest + b);
            g == Fed(h.state, h.rest, f.edges + h.edges)
    decreases |a|
  {
    hide AfterFrame, Feed, Settings.FrameBytes;
    var n := c.FrameBytes();
    FeedUnfold(c, s, a);
    if |a| >= n {
      var (next, edge) := AfterFrame(c, s, c.score(a[..n]));
      FeedInParts(c, next, a[n..], b);
      FeedUnfold(c, s, a + b);
      assert (a + b)[..n] == a[..n] && (a + b)[n..] == a[n..] + b;
      var f := Feed(c, next, a[n..]);
      var h := Feed(c, f.state, f.rest + b);
      assert [edge] + (f.edges + h.edges) == ([edge] + f.edges) + h.edges;
    } else {
      var h := Feed(c, s, a + b);
      assert [] + h.edges == h.edges;
    }
  }

  function FirstEdge(edges: seq<Edge>): Edge {
    if edges == [] then EdgeNone else if edges[0] != EdgeNone then edges[0] else FirstEdge(edges[1..])
  }

  lemma {:induction false} FirstEdgeAppend(edges: seq<Edge>, e: Edge)
    ensures FirstEdge(edges + [e]) == if FirstEdge(edges) != EdgeNone then FirstEdge(edges) else e
  {
    if edges == [] {
      assert edges + [e] == [e];
      assert FirstEdge([e]) == e;
    } else {
      assert (edges + [e])[1..] == edges[1..] + [e];
      FirstEdgeAppend(edges[1..], e);
    }
  }

  // ----- the detector -----

  class VAD {
    const settings: Settings
    var buf: seq<byte>
    var smoothed: real
    var phase: Phase
    var startCount: int
    var stopCount: int

    function Snapshot(): State
      reads this
    {
      State(smoothed, phase, startCount, stopCount)
    }

    constructor (settings: Settings)
      ensures this.settings == settings && buf == [] && Snapshot() == INITIAL
    {
      this.settings := settings;
      buf, smoothed, phase, startCount, stopCount := [], 0.0, Quiet, 0, 0;
    }

    /** The whole frames of the buffered bytes are processed; the first edge among them is reported. */
    method Push(pcm: seq<byte>) returns (edge: Edge)
      requires settings.FrameBytes() > 0
      modifies this
      ensures var f := Feed(settings, old(Snapshot()), old(buf) + pcm);
              Snapshot() == f.state && buf == f.rest && edge == FirstEdge(f.edges)
    {
      hide AfterFrame, Feed, Settings.FrameBytes;
      buf := buf + pcm;
      var frameBytes := settings.FrameBytes();
      edge := EdgeNone;
      ghost var whole := Feed(settings, Snapshot(), buf);
      ghost var done: seq<Edge> := [];
      while |buf| >= frameBytes
        invariant var f := Feed(settings, Snapshot(), buf);
                  whole.state == f.state && whole.rest == f.rest && whole.edges == done + f.edges
        invariant edge == FirstEdge(done)
        decreases |buf|
      {
        FeedUnfold(settings, Snapshot(), buf);
        var frame := buf[..frameBytes];
        buf := buf[frameBytes..];
        var e := ProcessFrame(frame);
        ghost var later := Feed(settings, Snapshot(), buf).edges;
        assert done + ([e] + later) == (done + [e]) + later;
        FirstEdgeAppend(done, e);
        done := done + [e];
        if e != EdgeNone && edge == EdgeNone {
          edge := e;
        }
      }
      FeedUnfold(settings, Snapshot(), buf);
      assert done + [] == done;
    }

    method ProcessFrame(frame: seq<byte>) returns (edge: Edge)
      requires settings.FrameBytes() > 0
      modifies `smoothed, `phase, `startCount, `stopCount
      ensures (Snapshot(), edge) == AfterFrame(settings, old(Snapshot()), settings.score(frame))
    {
      hide Smoothed;
      var raw := settings.score(frame);
      smoothed := Smoothed(settings, Snapshot(), raw);
      var speaking, energetic := smoothed >= settings.Threshold(), raw >= settings.Threshold();
      match phase {
        case Quiet =>
          if speaking {
            phase := Starting;
            startCount := 1;
          }
        case Starting =>
          if !speaking {
            phase := Quiet;
            startCount := 0;
          } else if energetic {
            startCount := startCount + 1;
            if startCount >= settings.StartFrames() {
              phase := Speaking;
              startCount := 0;
              return SpeechStart;
            }
          }
        case Speaking =>
          if !speaking {
            phase := Stopping;
            stopCount := 1;
          }
        case Stopping =>
          if speaking {
            phase := Speaking;
            stopCount := 0;
          } else {
            stopCount := stopCount + 1;
            if stopCount >= settings.StopFrames() {
              phase := Quiet;
              stopCount := 0;
              return SpeechStop;
            }
          }
      }
      return EdgeNone;
    }
  }

  /** Chunking-invariance: after any pushes the detector is where the concatenated bytes alone put it. */
  method PushAll(settings: Settings, chunks: seq<seq<byte>>) returns (v: VAD)
    requires settings.FrameBytes() > 0
    ensures fresh(v) && v.settings == settings
    ensures v.Snapshot() == Feed(settings, INITIAL, Join(chunks)).state
    ensures v.buf == Feed(settings, INITIAL, Join(chunks)).rest
  {
    hide AfterFrame, Feed, Join, Settings.FrameBytes;
    v := new VAD(settings);
    JoinFew<byte>([]);
    FeedUnfold(settings, INITIAL, []);
    var i := 0;
    while i < |chunks|
      invariant 0 <= i <= |chunks|
      invariant fresh(v) && v.settings == settings
      invariant v.Snapshot() == Feed(settings, INITIAL, Join(chunks[..i])).state
      invariant v.buf == Feed(settings, INITIAL, Join(chunks[..i])).rest
    {
      JoinOneMore(chunks, i);
      FeedInParts(settings, INITIAL, Join(chunks[..i]), chunks[i]);
      var _ := v.Push(chunks[i]);
      i := i + 1;
    }
    assert chunks[..i] == chunks;
  }

  // ----- edges -----

  /** Counts are positive where they matter. */
  predicate Counted(s: State) {
    (s.phase == Starting ==> s.startCount >= 1) && (s.phase == Stopping ==> s.stopCount >= 1)
  }

  function Max(a: int, b: int): int { if a >= b then a else b }

  function Min(a: int, b: int): int { if a <= b then a else b }

  /** The soonest frame, counting from one, that can be an edge. */
  function Soonest(c: Settings, s: State): int
    requires c.FrameBytes() > 0
  {
    match s.phase
    case Quiet => Max(2, c.StartFrames())
    case Starting => Max(1, c.StartFrames() - s.startCount)
    case Speaking => Max(2, c.StopFrames())
    case Stopping => Max(1, c.StopFrames() - s.stopCount)
  }

  predicate Talking(s: State) {
    s.phase == Speaking || s.phase == Stopping
  }

  /** One frame either brings the next edge closer by at most one frame or is that edge: a start out of
      silence, a stop out of speech. */
  lemma FrameStep(c: Settings, s: State, raw: real)
    requires c.FrameBytes() > 0 && Counted(s)
    ensures var (next, edge) := AfterFrame(c, s, raw);
            && Counted(next)
            && (edge == EdgeNone ==> Talking(next) == Talking(s) && Soonest(c, next) >= Soonest(c, s) - 1)
            && (edge != EdgeNone ==> Soonest(c, s) <= 1 && Talking(next) != Talking(s))
            && (edge == SpeechStart ==> !Talking(s) && Soonest(c, next) == Max(2, c.StopFrames()))
            && (edge == SpeechStop ==> Talking(s) && Soonest(c, next) == Max(2, c.StartFrames()))
  {
    hide Smoothed;
  }

  /** The first edge of a run comes no sooner than it can, and is the one the phase allows. */
  lemma {:induction false} FirstEdgeOfRun(c: Settings, s: State, data: seq<byte>, i: nat)
    requires c.FrameBytes() > 0 && Counted(s)
    requires i < |Feed(c, s, data).edges| && Feed(c, s, data).edges[i] != EdgeNone
    requires forall k :: 0 <= k < i ==> Feed(c, s, data).edges[k] == EdgeNone
    ensures i + 1 >= Soonest(c, s)
    ensures Feed(c, s, data).edges[i] == if Talking(s) then SpeechStop else SpeechStart
    decreases |data|
  {
    hide AfterFrame, Soonest, Settings.FrameBytes;
    var n := c.FrameBytes();
    var raw := c.score(data[..n]);
    var (next, edge) := AfterFrame(c, s, raw);
    FrameStep(c, s, raw);
    if i > 0 {
      assert Feed(c, s, data).edges[0] == EdgeNone;
      forall k | 0 <= k < i - 1
        ensures Feed(c, next, data[n..]).edges[k] == EdgeNone
      {
        assert Feed(c, next, data[n..]).edges[k] == Feed(c, s, data).edges[k + 1];
      }
      FirstEdgeOfRun(c, next, data[n..], i - 1);
    }
  }

  /** Between one edge and the next the edge changes kind and enough frames go by: a stop follows its start
      by at least the stop hold, a start follows its stop by at least the start hold, two frames at least. */
  lemma {:induction false} EdgesAlternate(c: Settings, s: State, data: seq<byte>, i: nat, j: nat)
    requires c.FrameBytes() > 0 && Counted(s)
    requires i < j < |Feed(c, s, data).edges|
    requires Feed(c, s, data).edges[i] != EdgeNone && Feed(c, s, data).edges[j] != EdgeNone
    requires forall k :: i < k < j ==> Feed(c, s, data).edges[k] == EdgeNone
    ensures Feed(c, s, data).edges[i] != Feed(c, s, data).edges[j]
    ensures j - i >= if Feed(c, s, data).edges[j] == SpeechStop then Max(2, c.StopFrames()) else Max(2, c.StartFrames())
    decreases |data|
  {
    hide AfterFrame, Soonest, Settings.FrameBytes;
    var n := c.FrameBytes();
    var raw := c.score(data[..n]);
    var (next, edge) := AfterFrame(c, s, raw);
    FrameStep(c, s, raw);
    var edges, later := Feed(c, s, data).edges, Feed(c, next, data[n..]).edges;
    assert edges == [edge] + later;
    forall k | Max(0, i) <= k < j - 1
      ensures later[k] == edges[k + 1]
    {
    }
    if i == 0 {
      FirstEdgeOfRun(c, next, data[n..], j - 1);
    } else {
      EdgesAlternate(c, next, data[n..], i - 1, j - 1);
    }
  }

  /** The frames a push may complete without two of them being edges. */
  function Window(c: Settings): int
    requires c.FrameBytes() > 0
  {
    Min(Max(2, c.StartFrames()), Max(2, c.StopFrames()))
  }

  /** Any two edges, neighbours or not, are a window apart. */
  lemma {:induction false} EdgesFarApart(c: Settings, s: State, data: seq<byte>, i: nat, j: nat)
    requires c.FrameBytes() > 0 && Counted(s)
    requires i < j < |Feed(c, s, data).edges|
    requires Feed(c, s, data).edges[i] != EdgeNone && Feed(c, s, data).edges[j] != EdgeNone
    ensures j - i >= Window(c)
    decreases j - i
  {
    if k :| i < k < j && Feed(c, s, data).edges[k] != EdgeNone {
      EdgesFarApart(c, s, data, i, k);
    } else {
      EdgesAlternate(c, s, data, i, j);
    }
  }

  /** Every state a detector can reach has its counts in order. */
  lemma {:induction false} FeedKeepsCounted(c: Settings, s: State, data: seq<byte>)
    requires c.FrameBytes() > 0 && Counted(s)
    ensures Counted(Feed(c, s, data).state)
    decreases |data|
  {
    hide AfterFrame, Settings.FrameBytes;
    var n := c.FrameBytes();
    if |data| >= n {
      FrameStep(c, s, c.score(data[..n]));
      FeedKeepsCounted(c, AfterFrame(c, s, c.score(data[..n])).0, data[n..]);
    }
  }

  /** No more than one of these frames is an edge, so reporting the first reports them all. */
  predicate ReportsAll(edges: seq<Edge>) {
    forall i, j :: 0 <= i < j < |edges| ==> edges[i] == EdgeNone || edges[j] == EdgeNone
  }

  /** A push that completes at most a window of frames, wherever the detector is, reports every edge there was. */
  lemma ShortPushDropsNoEdge(c: Settings, before: seq<byte>, data: seq<byte>)
    requires c.FrameBytes() > 0
    requires |Feed(c, Feed(c, INITIAL, before).state, data).edges| <= Window(c)
    ensures var edges := Feed(c, Feed(c, INITIAL, before).state, data).edges;
            && ReportsAll(edges)
            && forall i :: 0 <= i < |edges| && edges[i] != EdgeNone ==> FirstEdge(edges) == edges[i]
  {
    hide Feed, Window, Settings.FrameBytes;
    FeedKeepsCounted(c, INITIAL, before);
    var s := Feed(c, INITIAL, before).state;
    var edges := Feed(c, s, data).edges;
    forall i, j | 0 <= i < j < |edges|
      ensures edges[i] == EdgeNone || edges[j] == EdgeNone
    {
      if edges[i] != EdgeNone && edges[j] != EdgeNone {
        EdgesFarApart(c, s, data, i, j);
      }
    }
    forall i | 0 <= i < |edges| && edges[i] != EdgeNone
      ensures FirstEdge(edges) == edges[i]
    {
      OnlyEdge(edges, i);
    }
  }

  lemma {:induction false} OnlyEdge(edges: seq<Edge>, i: nat)
    requires i < |edges| && edges[i] != EdgeNone
    requires forall j :: 0 <= j < i ==> edges[j] == EdgeNone
    ensures FirstEdge(edges) == edges[i]
  {
    if i > 0 {
      OnlyEdge(edges[1..], i - 1);
    }
  }

  // ----- the window is exact -----

  /** A run over whole frames: where it ends, and the edge of every frame. */
  function FeedFrames(c: Settings, s: State, frames: seq<seq<byte>>): (State, seq<Edge>)
    requires c.FrameBytes() > 0
    decreases |frames|
  {
    if frames == [] then (s, [])
    else
      var (next, edge) := AfterFrame(c, s, c.score(frames[0]));
      var (last, edges) := FeedFrames(c, next, frames[1..]);
      (last, [edge] + edges)
  }

  predicate Whole(c: Settings, frames: seq<seq<byte>>) {
    forall i :: 0 <= i < |frames| ==> |frames[i]| == c.FrameBytes()
  }

  lemma {:induction false} FeedWhole(c: Settings, s: State, frames: seq<seq<byte>>)
    requires c.FrameBytes() > 0 && Whole(c, frames)
    ensures var (last, edges) := FeedFrames(c, s, frames);
            Feed(c, s, Join(frames)) == Fed(last, [], edges) && |edges| == |frames|
    decreases |frames|
  {
    hide AfterFrame, Settings.FrameBytes, Feed;
    FeedUnfold(c, s, Join(frames));
    if frames != [] {
      FeedWhole(c, AfterFrame(c, s, c.score(frames[0])).0, frames[1..]);
      assert Join(frames)[..|frames[0]|] == frames[0] && Join(frames)[|frames[0]|..] == Join(frames[1..]);
    }
  }

  lemma {:induction false} FramesConcat(c: Settings, s: State, a: seq<seq<byte>>, b: seq<seq<byte>>)
    requires c.FrameBytes() > 0
    ensures var (mid, front) := FeedFrames(c, s, a);
            var (last, back) := FeedFrames(c, mid, b);
            FeedFrames(c, s, a + b) == (last, front + back)
    decreases |a|
  {
    hide AfterFrame, Settings.FrameBytes;
    if a == [] {
      assert a + b == b && [] + FeedFrames(c, s, b).1 == FeedFrames(c, s, b).1;
    } else {
      var (next, edge) := AfterFrame(c, s, c.score(a[0]));
      FramesConcat(c, next, a[1..], b);
      assert (a + b)[1..] == a[1..] + b;
      var front := FeedFrames(c, next, a[1..]);
      var back := FeedFrames(c, front.0, b).1;
      assert [edge] + (front.1 + back) == ([edge] + front.1) + back;
    }
  }

  function Repeat(frame: seq<byte>, n: nat): (frames: seq<seq<byte>>)
    ensures |frames| == n && forall i :: 0 <= i < n ==> frames[i] == frame
  {
    if n == 0 then [] else [frame] + Repeat(frame, n - 1)
  }

  function MaxReal(a: real, b: real): real { if a >= b then a else b }

  // Three frames: a kick that takes silence over the threshold at once, a level one that stays there, and a soft one.
  datatype Probe = Probe(kick: seq<byte>, level: seq<byte>, soft: seq<byte>)

  /** The score separates the frames: the kick alone brings silence to the threshold, the level frame is at or
      over it, and from as high as these two get one soft frame brings the smoothed score below. */
  predicate Separates(c: Settings, p: Probe) {
    var k, threshold := c.Smoothing(), c.Threshold();
    && |p.kick| == |p.level| == |p.soft| == c.FrameBytes()
    && 0.0 < k <= 1.0
    && k * c.score(p.kick) >= threshold
    && 0.0 <= c.score(p.soft) < threshold <= c.score(p.level)
    && (1.0 - k) * MaxReal(k * c.score(p.kick), c.score(p.level)) + k * c.score(p.soft) < threshold
  }

  /** Every smoothing factor up to one and every positive threshold leave room for such frames. */
  lemma SeparationIsPossible(c: Settings, p: Probe)
    requires |p.kick| == |p.level| == |p.soft| == c.FrameBytes()
    requires 0.0 < c.Smoothing() <= 1.0 && c.Threshold() > 0.0
    requires c.score(p.kick) == c.Threshold() / c.Smoothing()
    requires c.score(p.level) == c.Threshold() && c.score(p.soft) == 0.0
    ensures Separates(c, p)
  {
    var k, t := c.Smoothing(), c.Threshold();
    assert k * (t / k) == t;
    assert (1.0 - k) * t == t - k * t && k * t > 0.0;
  }

  /** A smoothed score lies between the old one and the raw one. */
  lemma Between(k: real, a: real, b: real, lo: real, hi: real)
    requires 0.0 <= k <= 1.0 && lo <= a <= hi && lo <= b <= hi
    ensures lo <= a + k * (b - a) <= hi
  {
    var p, q := (1.0 - k) * (a - lo) + k * (b - lo), (1.0 - k) * (hi - a) + k * (hi - b);
    NotNegative(1.0 - k, a - lo);
    NotNegative(k, b - lo);
    NotNegative(1.0 - k, hi - a);
    NotNegative(k, hi - b);
    assert p == a + k * (b - a) - lo && q == hi - a - k * (b - a);
  }

  lemma NotNegative(x: real, y: real)
    requires x >= 0.0 && y >= 0.0
    ensures x * y >= 0.0
  {
  }

  function Peak(c: Settings, p: Probe): real {
    MaxReal(c.Smoothing() * c.score(p.kick), c.score(p.level))
  }

  lemma KickLifts(c: Settings, p: Probe, s: State)
    requires Separates(c, p) && s.smoothed >= 0.0
    ensures Smoothed(c, s, c.score(p.kick)) >= c.Threshold()
    ensures s.smoothed == 0.0 ==> Smoothed(c, s, c.score(p.kick)) <= Peak(c, p)
  {
    var k, raw := c.Smoothing(), c.score(p.kick);
    NotNegative(1.0 - k, s.smoothed);
    assert Smoothed(c, s, raw) == (1.0 - k) * s.smoothed + k * raw;
  }

  lemma LevelStays(c: Settings, p: Probe, s: State)
    requires Separates(c, p) && s.smoothed >= c.Threshold()
    ensures Smoothed(c, s, c.score(p.level)) >= c.Threshold()
    ensures s.smoothed <= Peak(c, p) ==> Smoothed(c, s, c.score(p.level)) <= Peak(c, p)
  {
    var raw := c.score(p.level);
    Between(c.Smoothing(), s.smoothed, raw, c.Threshold(), MaxReal(s.smoothed, raw));
  }

  lemma SoftDrops(c: Settings, p: Probe, s: State)
    requires Separates(c, p) && 0.0 <= s.smoothed && (s.smoothed <= Peak(c, p) || s.smoothed < c.Threshold())
    ensures 0.0 <= Smoothed(c, s, c.score(p.soft)) < c.Threshold()
  {
    var k, raw := c.Smoothing(), c.score(p.soft);
    var next := Smoothed(c, s, raw);
    assert next == (1.0 - k) * s.smoothed + k * raw;
    NotNegative(1.0 - k, s.smoothed);
    NotNegative(k, raw);
    if s.smoothed <= Peak(c, p) {
      NotNegative(1.0 - k, Peak(c, p) - s.smoothed);
      assert (1.0 - k) * (Peak(c, p) - s.smoothed) == (1.0 - k) * Peak(c, p) - (1.0 - k) * s.smoothed;
    } else {
      Between(k, s.smoothed, raw, 0.0, MaxReal(s.smoothed, raw));
    }
  }

  function StartSpan(c: Settings): nat
    requires c.FrameBytes() > 0
  {
    Max(2, c.StartFrames())
  }

  function StopSpan(c: Settings): nat
    requires c.FrameBytes() > 0
  {
    Max(2, c.StopFrames())
  }

  function Silence(n: nat): seq<Edge> {
    seq(n, _ => EdgeNone)
  }

  /** Level frames in the starting phase only count, as long as they stay short of the hold. */
  lemma {:induction false} LevelCounts(c: Settings, p: Probe, s: State, n: nat)
    requires c.FrameBytes() > 0 && Separates(c, p)
    requires s.phase == Starting && s.startCount >= 1 && s.startCount + n < StartSpan(c)
    requires s.smoothed >= c.Threshold()
    ensures var (last, edges) := FeedFrames(c, s, Repeat(p.level, n));
            && edges == Silence(n)
            && last == s.(startCount := s.startCount + n, smoothed := last.smoothed)
            && last.smoothed >= c.Threshold() && (s.smoothed <= Peak(c, p) ==> last.smoothed <= Peak(c, p))
    decreases n
  {
    if n > 0 {
      LevelStays(c, p, s);
      hide Smoothed, Separates, Peak, Settings.FrameBytes;
      var frames := Repeat(p.level, n);
      assert frames[0] == p.level && frames[1..] == Repeat(p.level, n - 1);
      var next := s.(startCount := s.startCount + 1, smoothed := Smoothed(c, s, c.score(p.level)));
      LevelIsEnergetic(c, p);
      assert AfterFrame(c, s, c.score(p.level)) == (next, EdgeNone);
      LevelCounts(c, p, next, n - 1);
      assert [EdgeNone] + Silence(n - 1) == Silence(n);
    }
  }

  lemma LevelIsEnergetic(c: Settings, p: Probe)
    requires Separates(c, p)
    ensures c.score(p.level) >= c.Threshold() > 0.0
  {
  }

  /** Soft frames in the stopping phase only count, as long as they stay short of the hold. */
  lemma {:induction false} SoftCounts(c: Settings, p: Probe, s: State, n: nat)
    requires c.FrameBytes() > 0 && Separates(c, p)
    requires s.phase == Stopping && s.stopCount >= 1 && s.stopCount + n < StopSpan(c)
    requires 0.0 <= s.smoothed < c.Threshold()
    ensures var (last, edges) := FeedFrames(c, s, Repeat(p.soft, n));
            && edges == Silence(n)
            && last == s.(stopCount := s.stopCount + n, smoothed := last.smoothed)
            && 0.0 <= last.smoothed < c.Threshold()
    decreases n
  {
    if n > 0 {
      SoftDrops(c, p, s);
      hide Smoothed, Separates, Settings.FrameBytes;
      var frames := Repeat(p.soft, n);
      assert frames[0] == p.soft && frames[1..] == Repeat(p.soft, n - 1);
      var next := s.(stopCount := s.stopCount + 1, smoothed := Smoothed(c, s, c.score(p.soft)));
      assert AfterFrame(c, s, c.score(p.soft)) == (next, EdgeNone);
      SoftCounts(c, p, next, n - 1);
      assert [EdgeNone] + Silence(n - 1) == Silence(n);
    }
  }

  /** From silence a kick and level frames bring the detector to the frame before its start edge. */
  lemma KickThenLevel(c: Settings, p: Probe, s: State)
    requires c.FrameBytes() > 0 && Separates(c, p)
    requires s.phase == Quiet && 0.0 <= s.smoothed < c.Threshold()
    ensures var n := StartSpan(c) - 2;
            var (last, edges) := FeedFrames(c, s, [p.kick] + Repeat(p.level, n));
            && edges == Silence(n + 1)
            && last == s.(phase := Starting, startCount := n + 1, smoothed := last.smoothed)
            && last.smoothed >= c.Threshold() && (s.smoothed == 0.0 ==> last.smoothed <= Peak(c, p))
  {
    KickLifts(c, p, s);
    hide Smoothed, Separates, Peak, Settings.FrameBytes;
    var n := StartSpan(c) - 2;
    var frames := [p.kick] + Repeat(p.level, n);
    var next := s.(phase := Starting, startCount := 1, smoothed := Smoothed(c, s, c.score(p.kick)));
    assert frames[1..] == Repeat(p.level, n);
    assert AfterFrame(c, s, c.score(p.kick)) == (next, EdgeNone);
    LevelCounts(c, p, next, n);
    assert [EdgeNone] + Silence(n) == Silence(n + 1);
  }

  /** One more level frame is the start edge. */
  lemma LevelStarts(c: Settings, p: Probe, s: State)
    requires c.FrameBytes() > 0 && Separates(c, p)
    requires s.phase == Starting && s.startCount == StartSpan(c) - 1 && s.smoothed >= c.Threshold()
    ensures var (last, edges) := FeedFrames(c, s, [p.level]);
            && edges == [SpeechStart]
            && last == s.(phase := Speaking, startCount := 0, smoothed := last.smoothed)
            && last.smoothed >= c.Threshold() && (s.smoothed <= Peak(c, p) ==> last.smoothed <= Peak(c, p))
  {
    LevelStays(c, p, s);
    LevelIsEnergetic(c, p);
    hide Smoothed, Separates, Peak, Settings.FrameBytes;
    assert [p.level][1..] == [];
  }

  /** From speech soft frames bring the detector to the frame before its stop edge. */
  lemma SoftStopping(c: Settings, p: Probe, s: State)
    requires c.FrameBytes() > 0 && Separates(c, p)
    requires s.phase == Speaking && c.Threshold() <= s.smoothed <= Peak(c, p)
    ensures var n := StopSpan(c) - 1;
            var (last, edges) := FeedFrames(c, s, Repeat(p.soft, n));
            && edges == Silence(n)
            && last == s.(phase := Stopping, stopCount := n, smoothed := last.smoothed)
            && 0.0 <= last.smoothed < c.Threshold()
  {
    LevelIsEnergetic(c, p);
    SoftDrops(c, p, s);
    hide Smoothed, Separates, Peak, Settings.FrameBytes;
    var n := StopSpan(c) - 1;
    var frames := Repeat(p.soft, n);
    assert frames[0] == p.soft && frames[1..] == Repeat(p.soft, n - 1);
    var next := s.(phase := Stopping, stopCount := 1, smoothed := Smoothed(c, s, c.score(p.soft)));
    assert AfterFrame(c, s, c.score(p.soft)) == (next, EdgeNone);
    SoftCounts(c, p, next, n - 1);
    assert [EdgeNone] + Silence(n - 1) == Silence(n);
  }

  /** One more soft frame is the stop edge. */
  lemma SoftStops(c: Settings, p: Probe, s: State)
    requires c.FrameBytes() > 0 && Separates(c, p)
    requires s.phase == Stopping && s.stopCount == StopSpan(c) - 1 && 0.0 <= s.smoothed < c.Threshold()
    ensures var (last, edges) := FeedFrames(c, s, [p.soft]);
            && edges == [SpeechStop]
            && last == s.(phase := Quiet, stopCount := 0, smoothed := last.smoothed)
            && 0.0 <= last.smoothed < c.Threshold()
  {
    SoftDrops(c, p, s);
    hide Smoothed, Separates, Settings.FrameBytes;
    assert [p.soft][1..] == [];
  }

  /** An edge on the first of these frames, another kind of edge on the last, none in between. */
  predicate EdgeAtEachEnd(edges: seq<Edge>, first: Edge, last: Edge) {
    |edges| >= 2 && edges == [first] + Silence(|edges| - 2) + [last]
  }

  /** A start and the stop that follows it as soon as it can. */
  lemma StartThenStop(c: Settings, p: Probe) returns (before: seq<seq<byte>>, push: seq<seq<byte>>)
    requires c.FrameBytes() > 0 && Separates(c, p)
    ensures Whole(c, before) && Whole(c, push) && |push| == StopSpan(c) + 1
    ensures EdgeAtEachEnd(FeedFrames(c, FeedFrames(c, INITIAL, before).0, push).1, SpeechStart, SpeechStop)
  {
    WholeProbe(c, p);
    LevelIsEnergetic(c, p);
    hide Separates, Settings.FrameBytes, FeedFrames, Repeat;
    var softs := Repeat(p.soft, StopSpan(c) - 1);
    before := [p.kick] + Repeat(p.level, StartSpan(c) - 2);
    push := [p.level] + softs + [p.soft];
    KickThenLevel(c, p, INITIAL);
    var s0 := FeedFrames(c, INITIAL, before).0;
    LevelStarts(c, p, s0);
    var s1 := FeedFrames(c, s0, [p.level]).0;
    SoftStopping(c, p, s1);
    var s2 := FeedFrames(c, s1, softs).0;
    SoftStops(c, p, s2);
    FramesConcat(c, s0, [p.level], softs);
    FramesConcat(c, s0, [p.level] + softs, [p.soft]);
  }

  /** A stop and the start that follows it as soon as it can. */
  lemma StopThenStart(c: Settings, p: Probe) returns (before: seq<seq<byte>>, push: seq<seq<byte>>)
    requires c.FrameBytes() > 0 && Separates(c, p)
    ensures Whole(c, before) && Whole(c, push) && |push| == StartSpan(c) + 1
    ensures EdgeAtEachEnd(FeedFrames(c, FeedFrames(c, INITIAL, before).0, push).1, SpeechStop, SpeechStart)
  {
    WholeProbe(c, p);
    LevelIsEnergetic(c, p);
    hide Separates, Settings.FrameBytes, FeedFrames, Repeat;
    var softs, kicks := Repeat(p.soft, StopSpan(c) - 1), [p.kick] + Repeat(p.level, StartSpan(c) - 2);
    before := kicks + [p.level] + softs;
    push := [p.soft] + kicks + [p.level];
    KickThenLevel(c, p, INITIAL);
    var s0 := FeedFrames(c, INITIAL, kicks).0;
    LevelStarts(c, p, s0);
    var s1 := FeedFrames(c, s0, [p.level]).0;
    SoftStopping(c, p, s1);
    FramesConcat(c, INITIAL, kicks, [p.level]);
    FramesConcat(c, INITIAL, kicks + [p.level], softs);
    var s2 := FeedFrames(c, INITIAL, before).0;
    SoftStops(c, p, s2);
    var s3 := FeedFrames(c, s2, [p.soft]).0;
    KickThenLevel(c, p, s3);
    var s4 := FeedFrames(c, s3, kicks).0;
    LevelStarts(c, p, s4);
    FramesConcat(c, s2, [p.soft], kicks);
    FramesConcat(c, s2, [p.soft] + kicks, [p.level]);
  }

  lemma WholeProbe(c: Settings, p: Probe)
    requires Separates(c, p)
    ensures |p.kick| == |p.level| == |p.soft| == c.FrameBytes()
  {
  }

  /** From a reachable state a push of one frame more than a window has an edge on its first and another on its
      last frame, and reports only the first. */
  lemma LongPushDropsAnEdge(c: Settings, p: Probe) returns (before: seq<byte>, data: seq<byte>)
    requires c.FrameBytes() > 0 && Separates(c, p)
    ensures var f := Feed(c, INITIAL, before);
            var g := Feed(c, f.state, data);
            && f.rest == [] && g.rest == [] && |g.edges| == Window(c) + 1
            && g.edges[0] != EdgeNone && g.edges[Window(c)] != EdgeNone
            && FirstEdge(g.edges) == g.edges[0] != g.edges[Window(c)]
  {
    hide Separates, Settings.FrameBytes, FeedFrames, Feed;
    var frames, push;
    if StopSpan(c) <= StartSpan(c) {
      frames, push := StartThenStop(c, p);
    } else {
      frames, push := StopThenStart(c, p);
    }
    before, data := Join(frames), Join(push);
    FeedWhole(c, INITIAL, frames);
    FeedWhole(c, FeedFrames(c, INITIAL, frames).0, push);
  }

  /** So the window is exact: whatever the detector has heard before, pushes that complete n frames report every
      edge if and only if n is at most a window. */
  lemma WindowIsExact(c: Settings, p: Probe, n: nat)
    requires c.FrameBytes() > 0 && Separates(c, p)
    ensures (forall before: seq<byte>, data: seq<byte> ::
               |Feed(c, Feed(c, INITIAL, before).state, data).edges| == n
               ==> ReportsAll(Feed(c, Feed(c, INITIAL, before).state, data).edges))
            <==> n <= Window(c)
  {
    hide Separates, Settings.FrameBytes, FeedFrames, Feed;
    if n <= Window(c) {
      forall before: seq<byte>, data: seq<byte> | |Feed(c, Feed(c, INITIAL, before).state, data).edges| == n
        ensures ReportsAll(Feed(c, Feed(c, INITIAL, before).state, data).edges)
      {
        ShortPushDropsNoEdge(c, before, data);
      }
    } else {
      var before, data := LongPushDropsAnEdge(c, p);
      var more := Repeat(p.soft, n - Window(c) - 1);
      var s := Feed(c, INITIAL, before).state;
      var g := Feed(c, s, data);
      WholeProbe(c, p);
      FeedWhole(c, g.state, more);
      FeedInParts(c, s, data, Join(more));
      assert [] + Join(more) == Join(more);
      var edges := Feed(c, s, data + Join(more)).edges;
      assert edges[0] == g.edges[0] && edges[Window(c)] == g.edges[Window(c)];
      assert |edges| == n && !ReportsAll(edges);
    }
  }

  // ----- what an edge takes -----

  /** The smoothed score after k frames: a step of the smoothing factor towards each raw score. */
  function SmoothedAt(c: Settings, frames: seq<seq<byte>>, k: nat): real
    requires k <= |frames|
  {
    if k == 0 then 0.0
    else
      var before := SmoothedAt(c, frames, k - 1);
      before + c.Smoothing() * (c.score(frames[k - 1]) - before)
  }

  /** Behind frame k the smoothed score is at or over the threshold. */
  predicate IsSpeech(c: Settings, frames: seq<seq<byte>>, k: nat)
    requires k < |frames|
  {
    SmoothedAt(c, frames, k + 1) >= c.Threshold()
  }

  /** How many of the frames lo up to hi are at or over the threshold by themselves. */
  function Energetic(c: Settings, frames: seq<seq<byte>>, lo: nat, hi: nat): nat
    requires lo <= hi <= |frames|
  {
    if lo == hi then 0
    else
      var earlier := Energetic(c, frames, lo, hi - 1);
      if c.score(frames[hi - 1]) >= c.Threshold() then earlier + 1 else earlier
  }

  /** The unbroken speech that ends before frame n begins at frame i. */
  predicate SpeechFrom(c: Settings, frames: seq<seq<byte>>, i: nat, n: nat)
    requires n <= |frames|
  {
    && i < n && (forall k :: i <= k < n ==> IsSpeech(c, frames, k))
    && (i > 0 ==> !IsSpeech(c, frames, i - 1))
  }

  predicate SilentFrom(c: Settings, frames: seq<seq<byte>>, i: int, n: nat)
    requires n <= |frames|
  {
    0 <= i < n && forall k :: i <= k < n ==> !IsSpeech(c, frames, k)
  }

  /** The state before frame k of a run from the start. */
  function StateAt(c: Settings, frames: seq<seq<byte>>, k: nat): State
    requires c.FrameBytes() > 0 && k <= |frames|
  {
    if k == 0 then INITIAL else AfterFrame(c, StateAt(c, frames, k - 1), c.score(frames[k - 1])).0
  }

  lemma {:induction false} StateAtIs(c: Settings, frames: seq<seq<byte>>, k: nat)
    requires c.FrameBytes() > 0 && k <= |frames|
    ensures FeedFrames(c, INITIAL, frames[..k]).0 == StateAt(c, frames, k)
  {
    hide AfterFrame, Settings.FrameBytes;
    if k > 0 {
      StateAtIs(c, frames, k - 1);
      assert frames[..k] == frames[..k - 1] + [frames[k - 1]];
      FramesConcat(c, INITIAL, frames[..k - 1], [frames[k - 1]]);
      OneFrame(c, StateAt(c, frames, k - 1), frames[k - 1]);
    }
  }

  lemma OneFrame(c: Settings, s: State, frame: seq<byte>)
    requires c.FrameBytes() > 0
    ensures FeedFrames(c, s, [frame]) == (AfterFrame(c, s, c.score(frame)).0, [AfterFrame(c, s, c.score(frame)).1])
  {
    hide AfterFrame, Settings.FrameBytes;
    var frames, edge := [frame], AfterFrame(c, s, c.score(frame)).1;
    assert frames[1..] == [] && [edge] + [] == [edge];
  }

  lemma EdgeAtIs(c: Settings, frames: seq<seq<byte>>, k: nat)
    requires c.FrameBytes() > 0 && k < |frames|
    ensures |FeedFrames(c, INITIAL, frames).1| > k
    ensures FeedFrames(c, INITIAL, frames).1[k] == AfterFrame(c, StateAt(c, frames, k), c.score(frames[k])).1
  {
    hide AfterFrame, Settings.FrameBytes;
    StateAtIs(c, frames, k);
    var front, back := frames[..k], frames[k..];
    assert frames == front + back;
    FramesConcat(c, INITIAL, front, back);
    FramesCount(c, INITIAL, front);
    assert back[0] == frames[k];
  }

  lemma {:induction false} FramesCount(c: Settings, s: State, frames: seq<seq<byte>>)
    requires c.FrameBytes() > 0
    ensures |FeedFrames(c, s, frames).1| == |frames|
    decreases |frames|
  {
    hide AfterFrame, Settings.FrameBytes;
    if frames != [] {
      FramesCount(c, AfterFrame(c, s, c.score(frames[0])).0, frames[1..]);
    }
  }

  /** What the phase and the counts say about the frames so far. */
  ghost predicate Tells(c: Settings, frames: seq<seq<byte>>, k: nat)
    requires c.FrameBytes() > 0 && k <= |frames|
  {
    var s := StateAt(c, frames, k);
    && s.smoothed == SmoothedAt(c, frames, k)
    && (s.phase == Quiet ==> k == 0 || !IsSpeech(c, frames, k - 1))
    && (s.phase == Starting ==>
          exists i: nat :: SpeechFrom(c, frames, i, k)
                           && s.startCount == 1 + Energetic(c, frames, i + 1, k) < Max(2, c.StartFrames()))
    && (s.phase == Speaking ==> k > 0 && IsSpeech(c, frames, k - 1))
    && (s.phase == Stopping ==>
          && SilentFrom(c, frames, k - s.stopCount, k) && s.stopCount < Max(2, c.StopFrames())
          && k - s.stopCount > 0 && IsSpeech(c, frames, k - s.stopCount - 1))
  }

  lemma TellsStep(c: Settings, frames: seq<seq<byte>>, k: nat)
    requires c.FrameBytes() > 0 && k < |frames| && Tells(c, frames, k)
    ensures Tells(c, frames, k + 1)
  {
    hide Settings.FrameBytes, Settings.StartFrames, Settings.StopFrames;
    var s, s' := StateAt(c, frames, k), StateAt(c, frames, k + 1);
    assert s'.smoothed == SmoothedAt(c, frames, k + 1);
    if s'.phase == Starting {
      if s.phase == Quiet {
        assert SpeechFrom(c, frames, k, k + 1) && Energetic(c, frames, k + 1, k + 1) == 0;
      } else {
        var i: nat :| SpeechFrom(c, frames, i, k) && s.startCount == 1 + Energetic(c, frames, i + 1, k);
        assert SpeechFrom(c, frames, i, k + 1);
      }
    }
  }

  lemma {:induction false} RunsTell(c: Settings, frames: seq<seq<byte>>, k: nat)
    requires c.FrameBytes() > 0 && k <= |frames|
    ensures Tells(c, frames, k)
  {
    hide Settings.FrameBytes, Tells;
    if k == 0 {
      StartTells(c, frames);
    } else {
      RunsTell(c, frames, k - 1);
      TellsStep(c, frames, k - 1);
    }
  }

  lemma StartTells(c: Settings, frames: seq<seq<byte>>)
    requires c.FrameBytes() > 0
    ensures Tells(c, frames, 0)
  {
  }

  /** The last of the first n frames is energetic itself and completes the start hold: behind the first frame of the
      unbroken speech, one energetic frame less than the hold has, and at least one. */
  ghost predicate Earned(c: Settings, frames: seq<seq<byte>>, n: nat)
    requires c.FrameBytes() > 0 && 0 < n <= |frames|
  {
    && c.score(frames[n - 1]) >= c.Threshold()
    && exists i: nat :: SpeechFrom(c, frames, i, n) && Energetic(c, frames, i + 1, n) >= Max(1, c.StartFrames() - 1)
  }

  /** Out of silence speech starts at exactly the frame that earns it. */
  lemma StartIff(c: Settings, frames: seq<seq<byte>>, k: nat)
    requires c.FrameBytes() > 0 && k < |frames| && !Talking(StateAt(c, frames, k))
    ensures |FeedFrames(c, INITIAL, frames).1| > k
    ensures FeedFrames(c, INITIAL, frames).1[k] == SpeechStart <==> Earned(c, frames, k + 1)
  {
    hide Settings.FrameBytes, AfterFrame, Tells, Earned, FeedFrames;
    EdgeAtIs(c, frames, k);
    RunsTell(c, frames, k);
    if StateAt(c, frames, k).phase == Quiet {
      QuietStarts(c, frames, k);
    } else {
      StartingStarts(c, frames, k);
    }
  }

  lemma QuietStarts(c: Settings, frames: seq<seq<byte>>, k: nat)
    requires c.FrameBytes() > 0 && k < |frames| && Tells(c, frames, k) && StateAt(c, frames, k).phase == Quiet
    ensures AfterFrame(c, StateAt(c, frames, k), c.score(frames[k])).1 == EdgeNone && !Earned(c, frames, k + 1)
  {
    hide Settings.FrameBytes, Settings.StartFrames, Settings.StopFrames, IsSpeech, StateAt, Smoothed;
    assert k > 0 ==> !IsSpeech(c, frames, k - 1);
  }

  lemma StartingStarts(c: Settings, frames: seq<seq<byte>>, k: nat)
    requires c.FrameBytes() > 0 && k < |frames| && Tells(c, frames, k) && StateAt(c, frames, k).phase == Starting
    ensures AfterFrame(c, StateAt(c, frames, k), c.score(frames[k])).1 == SpeechStart <==> Earned(c, frames, k + 1)
  {
    hide Settings.FrameBytes, Settings.StartFrames, Settings.StopFrames, StateAt;
    var s := StateAt(c, frames, k);
    var i: nat :| SpeechFrom(c, frames, i, k) && s.startCount == 1 + Energetic(c, frames, i + 1, k);
    SpeechGoesOn(c, frames, i, k, k + 1);
    SpeechNow(c, frames, k);
    assert Energetic(c, frames, i + 1, k + 1) ==
           Energetic(c, frames, i + 1, k) + if c.score(frames[k]) >= c.Threshold() then 1 else 0;
  }

  lemma SpeechGoesOn(c: Settings, frames: seq<seq<byte>>, i: nat, k: nat, n: nat)
    requires n == k + 1 && k < |frames| && SpeechFrom(c, frames, i, k)
    ensures SpeechFrom(c, frames, i, n) <==> IsSpeech(c, frames, k)
    ensures forall j: nat :: SpeechFrom(c, frames, j, n) ==> j == i
  {
  }

  /** Speech stops exactly at the frame that completes the stop hold of frames without speech, two at least. */
  lemma StopIff(c: Settings, frames: seq<seq<byte>>, k: nat)
    requires c.FrameBytes() > 0 && k < |frames| && Talking(StateAt(c, frames, k))
    ensures |FeedFrames(c, INITIAL, frames).1| > k
    ensures FeedFrames(c, INITIAL, frames).1[k] == SpeechStop <==>
            SilentFrom(c, frames, k + 1 - Max(2, c.StopFrames()), k + 1)
  {
    hide Settings.FrameBytes, AfterFrame, Tells, SilentFrom, FeedFrames;
    EdgeAtIs(c, frames, k);
    RunsTell(c, frames, k);
    TalkingStops(c, frames, k, Max(2, c.StopFrames()));
  }

  lemma TalkingStops(c: Settings, frames: seq<seq<byte>>, k: nat, need: int)
    requires c.FrameBytes() > 0 && k < |frames| && Tells(c, frames, k) && Talking(StateAt(c, frames, k))
    requires need == Max(2, c.StopFrames())
    ensures AfterFrame(c, StateAt(c, frames, k), c.score(frames[k])).1 == SpeechStop <==>
            SilentFrom(c, frames, k + 1 - need, k + 1)
  {
    hide Settings.FrameBytes, Settings.StartFrames, Settings.StopFrames, StateAt, IsSpeech;
    var s := StateAt(c, frames, k);
    SpeechNow(c, frames, k);
    if SilentFrom(c, frames, k + 1 - need, k + 1) {
      assert !IsSpeech(c, frames, k) && !IsSpeech(c, frames, k - 1);
    }
  }

  lemma SpeechNow(c: Settings, frames: seq<seq<byte>>, k: nat)
    requires c.FrameBytes() > 0 && k < |frames| && StateAt(c, frames, k).smoothed == SmoothedAt(c, frames, k)
    ensures IsSpeech(c, frames, k) <==> Smoothed(c, StateAt(c, frames, k), c.score(frames[k])) >= c.Threshold()
  {
    hide Settings.FrameBytes, StateAt;
  }

  /** Left unset: 20 ms frames of 16-bit samples at 16 kHz, a start within 6 frames and a stop within 13. */
  lemma DefaultsMean(score: seq<byte> -> real)
    ensures var c := Settings(score, 0, 0, 0, 0, 0.0, 0.0);
            && c.FrameBytes() == 640 && c.StartFrames() == 6 && c.StopFrames() == 13
            && c.Threshold() == 0.01 && c.Smoothing() == 0.2
  {
    var c := Settings(score, 0, 0, 0, 0, 0.0, 0.0);
    assert c.FrameBytes() == 640;
    HoldInFrames(c, 120_000_000);
    HoldInFrames(c, 250_000_000);
  }

  /** A hold in frames is the nearest number of frames, and at least one. */
  lemma HoldInFrames(c: Settings, hold: int)
    requires c.FrameBytes() > 0 && c.FrameMS() > 0 && hold >= 0
    ensures var n, frame := c.Frames(hold), c.FrameMS() * 1_000_000;
            && n >= 1 && 2 * hold < (2 * n + 1) * frame
            && (n > 1 ==> (2 * n - 1) * frame <= 2 * hold)
  {
    var ms := c.FrameMS() as real;
    var x := hold as real / 1_000_000.0 / ms;
    assert x * ms * 1_000_000.0 == hold as real;
    var n := Round(x);
    assert n as real <= x + 0.5 < n as real + 1.0;
    Scale(n as real - 0.5, x, n as real + 0.5, ms);
  }

  lemma Scale(lo: real, x: real, hi: real, ms: real)
    requires lo <= x < hi && ms > 0.0
    ensures lo * ms * 1_000_000.0 <= x * ms * 1_000_000.0 < hi * ms * 1_000_000.0
  {
    NotNegative(x - lo, ms);
    assert (hi - x) * ms > 0.0;
    assert (x - lo) * ms == x * ms - lo * ms && (hi - x) * ms == hi * ms - x * ms;
  }
}
