/** The image providers of image_provider.go: a frame animation that
    advances when enough time has passed since its last frame, and a still
    sprite. Images are opaque handles; the wall clock is a parameter. */
module ImageProvider {

  import GoInt

  /** A handle standing for an `*ebiten.Image`. */
  datatype Image = Image(id: nat)

  /** Times and durations are in nanoseconds, as Go's `time` package counts. */
  datatype Animation = Animation(frameNum: int, frameDuration: int, lastFrameTime: int, images: seq<Image>)

  /** The outcome of asking an animation for its image: the animation as the
      call leaves it and the image, or a run-time panic (an index out of
      range, or `%` by a zero frame count). */
  datatype Shown = Shown(next: Animation, image: Image) | Panic

  /** An animation whose current frame indexes one of its images. */
  predicate Valid(a: Animation)
  {
    0 <= a.frameNum < |a.images|
  }

  /** `time.Since(a.lastFrameTime) > a.frameDuration` at time `now`. */
  predicate Advances(a: Animation, now: int)
  {
    now - a.lastFrameTime > a.frameDuration
  }

  /** `(*Animation).GetImage` called at time `now`. */
  function GetImage(a: Animation, now: int): (r: Shown)
    ensures |a.images| == 0 ==> r == Panic
    ensures Valid(a) ==> r.Shown?
    ensures r.Shown? ==> && Valid(r.next) && r.image == r.next.images[r.next.frameNum]
                         && r.next.images == a.images && r.next.frameDuration == a.frameDuration
    ensures r.Shown? && !Advances(a, now) ==> r.next == a
    ensures r.Shown? && Advances(a, now) ==> r.next.lastFrameTime == now
    ensures r.Shown? && Advances(a, now) && a.frameNum >= 0 ==> r.next.frameNum == (a.frameNum + 1) % |a.images|
  {
    if Advances(a, now) then
      if |a.images| == 0 then Panic
      else
        var f := GoInt.Rem(a.frameNum + 1, |a.images|);
        if 0 <= f < |a.images| then
          Shown(a.(frameNum := f, lastFrameTime := now), a.images[f])
        else Panic
    else if 0 <= a.frameNum < |a.images| then Shown(a, a.images[a.frameNum])
    else Panic
  }

  /** `NewAnimationFromSheet`: the zero animation, which holds no image. */
  function NewAnimationFromSheet(): (a: Animation)
    ensures |a.images| == 0
  {
    Animation(0, 0, 0, [])
  }

  /** The animation from a sheet panics whenever its image is asked for. */
  lemma SheetAnimationPanics(now: int)
    ensures GetImage(NewAnimationFromSheet(), now) == Panic
  {
  }

  /** `NewAnimationFromFolder` created at time `now`, given the images read
      from the folder in directory order. */
  function NewAnimationFromFolder(now: int, frameDuration: int, images: seq<Image>): (a: Animation)
    ensures Valid(a) <==> |images| > 0
    ensures a.frameNum == 0 && a.lastFrameTime == now && a.images == images
  {
    Animation(0, frameDuration, now, images)
  }

  /** A folder animation shows its first image until its frame duration has
      passed, and its second one (the first again if it has one image) on
      the first call after that. */
  lemma FolderAnimationStart(now: int, frameDuration: int, images: seq<Image>, later: int)
    requires |images| > 0
    ensures var a := NewAnimationFromFolder(now, frameDuration, images);
      GetImage(a, later).image == (if later - now > frameDuration then images[1 % |images|] else images[0])
  {
  }

  // == Runs of calls ========

  /** Asks a valid animation for its image at each of `times` in turn:
      the animation afterwards and the images shown, in order. */
  function Run(a: Animation, times: seq<int>): (r: (Animation, seq<Image>))
    requires Valid(a)
    ensures Valid(r.0) && r.0.images == a.images && r.0.frameDuration == a.frameDuration
    ensures |r.1| == |times|
    decreases |times|
  {
    if |times| == 0 then (a, [])
    else
      var (b, shown) := Run(a, times[..|times| - 1]);
      var s := GetImage(b, times[|times| - 1]);
      (s.next, shown + [s.image])
  }

  /** Every call comes more than a frame duration after the one before it
      (the first, after the animation's last frame). */
  predicate Spaced(a: Animation, times: seq<int>)
  {
    forall j :: 0 <= j < |times| ==> times[j] - Previous(a, times, j) > a.frameDuration
  }

  /** The time of the call before the `j`-th one, or of the animation's last
      frame for the first call. */
  function Previous(a: Animation, times: seq<int>, j: nat): int
    requires j < |times|
  {
    if j == 0 then a.lastFrameTime else times[j - 1]
  }

  lemma ModSucc(x: nat, n: nat)
    requires n > 0
    ensures (x % n + 1) % n == (x + 1) % n
  {
    var q, r := x / n, x % n;
    if r + 1 < n {
      ModUnique(x + 1, n, q, r + 1);
    } else {
      ModUnique(x + 1, n, q + 1, 0);
    }
  }

  lemma ModUnique(a: int, n: int, q: int, r: int)
    requires n > 0 && a == q * n + r && 0 <= r < n
    ensures a % n == r
  {
    var q', r' := a / n, a % n;
    assert (q - q') * n == r' - r;
    if q > q' {
      GoInt.MulAtLeast(q - q', n);
    } else if q < q' {
      GoInt.MulAtLeast(q' - q, n);
    }
  }

  lemma SpacedPrefix(a: Animation, times: seq<int>)
    requires Spaced(a, times) && |times| > 0
    ensures Spaced(a, times[..|times| - 1])
  {
    var prefix := times[..|times| - 1];
    forall j | 0 <= j < |prefix| ensures prefix[j] - Previous(a, prefix, j) > a.frameDuration {
      assert prefix[j] == times[j] && Previous(a, prefix, j) == Previous(a, times, j);
    }
  }

  /** The frame `k` steps on from frame `f` of `n`. */
  function Later(f: nat, k: nat, n: nat): nat
    requires n > 0
  {
    (f + k) % n
  }

  /** Calls spaced more than a frame duration apart step through the frames
      cyclically: after `k` of them the animation is `k` frames further on,
      modulo the number of images, and the `j`-th call shows the frame
      `j + 1` further on. */
  lemma {:induction false} SpacedRunCycles(a: Animation, times: seq<int>)
    requires Valid(a) && Spaced(a, times)
    ensures Run(a, times).0.frameNum == Later(a.frameNum, |times|, |a.images|)
    ensures Run(a, times).0.lastFrameTime == (if |times| == 0 then a.lastFrameTime else times[|times| - 1])
    ensures forall j :: 0 <= j < |times| ==> Run(a, times).1[j] == a.images[Later(a.frameNum, j + 1, |a.images|)]
    decreases |times|
  {
    var n := |a.images|;
    if |times| > 0 {
      var k := |times| - 1;
      var prefix := times[..k];
      SpacedPrefix(a, times);
      SpacedRunCycles(a, prefix);
      var before := Run(a, prefix);
      var b := before.0;
      assert b.lastFrameTime == Previous(a, times, k);
      assert times[k] - Previous(a, times, k) > a.frameDuration;
      assert Advances(b, times[k]);
      var s := GetImage(b, times[k]);
      assert s.next.frameNum == (Later(a.frameNum, k, n) + 1) % n;
      ModSucc(a.frameNum + k, n);
      assert s.next.frameNum == Later(a.frameNum, k + 1, n);
      assert Run(a, times) == (s.next, before.1 + [s.image]);
    } else {
      ModUnique(a.frameNum, n, 0, a.frameNum);
    }
  }

  /** As many spaced calls as there are images bring the animation back to
      the frame it started on. */
  lemma FullCycleReturns(a: Animation, times: seq<int>)
    requires Valid(a) && Spaced(a, times) && |times| == |a.images|
    ensures Run(a, times).0.frameNum == a.frameNum
  {
    SpacedRunCycles(a, times);
    ModUnique(a.frameNum + |times|, |a.images|, 1, a.frameNum);
  }

  /** Calls that all come within a frame duration of the last frame change
      nothing and keep showing the current frame. */
  lemma {:induction false} IdleRunHolds(a: Animation, times: seq<int>)
    requires Valid(a)
    requires forall j :: 0 <= j < |times| ==> !Advances(a, times[j])
    ensures Run(a, times).0 == a
    ensures forall j :: 0 <= j < |times| ==> Run(a, times).1[j] == a.images[a.frameNum]
    decreases |times|
  {
    if |times| > 0 {
      var prefix := times[..|times| - 1];
      assert forall j :: 0 <= j < |prefix| ==> prefix[j] == times[j];
      IdleRunHolds(a, prefix);
    }
  }

  // == Providers ========

  datatype Sprite = Sprite(mirrors: int, image: Image)

  /** The two implementations of the `ImageProvider` interface. */
  datatype Provider = Animated(animation: Animation) | Still(sprite: Sprite)

  datatype Drawn = Drawn(next: Provider, image: Image) | Panicked

  /** `GetImage` through the interface: a sprite always yields its image and
      stays as it is; an animation behaves as `(*Animation).GetImage`. */
  function ProviderImage(p: Provider, now: int): (r: Drawn)
    ensures p.Still? ==> r == Drawn(p, p.sprite.image)
    ensures p.Animated? ==> (r.Panicked? <==> GetImage(p.animation, now).Panic?)
    ensures p.Animated? && r.Drawn? ==> r.next == Animated(GetImage(p.animation, now).next)
                                        && r.image == GetImage(p.animation, now).image
  {
    match p
    case Still(s) => Drawn(p, s.image)
    case Animated(a) =>
      match GetImage(a, now)
      case Panic => Panicked
      case Shown(b, img) => Drawn(Animated(b), img)
  }
}
