/** The pixel copy of the compositor's render_buffer: a clipped blit with strides, guarded by both lengths. */
module Blit {

  type Pixel = nat

  function Min(a: nat, b: nat): nat {
    if a < b then a else b
  }

  // Buffer and screen sizes in pixels; `stride` is the distance between the buffer's rows.
  datatype Geometry = Geometry(bufWidth: nat, bufHeight: nat, stride: nat, fbWidth: nat, fbHeight: nat)

  function ClipWidth(g: Geometry): nat {
    Min(g.bufWidth, g.fbWidth)
  }

  function ClipHeight(g: Geometry): nat {
    Min(g.bufHeight, g.fbHeight)
  }

  // What the copy leaves at position i of the framebuffer.
  function Drawn(before: seq<Pixel>, src: seq<Pixel>, g: Geometry, i: nat): Pixel
    requires i < |before|
  {
    if g.fbWidth == 0 then before[i]
    else
      var y, x := i / g.fbWidth, i % g.fbWidth;
      if y < ClipHeight(g) && x < ClipWidth(g) && y * g.stride + x < |src| then src[y * g.stride + x] else before[i]
  }

  // A framebuffer position belongs to one row and column.
  lemma Position(w: nat, y: nat, x: nat)
    requires x < w
    ensures (y * w + x) / w == y && (y * w + x) % w == x
  {
    var i := y * w + x;
    var q, r := i / w, i % w;
    SameRow(w, y, x, q, r);
    SameRow(w, q, r, y, x);
  }

  lemma SameRow(w: nat, y: nat, x: nat, q: nat, r: nat)
    requires x < w && r < w && y * w + x == q * w + r
    ensures y <= q
  {
    var d := y - q;
    assert d * w == y * w - q * w == r - x;
    assert d >= 1 ==> d * w >= w;
  }

  // Which positions are written before column x of row y.
  predicate Reached(g: Geometry, i: nat, y: nat, x: nat)
    requires g.fbWidth > 0
  {
    i / g.fbWidth < y || (i / g.fbWidth == y && i % g.fbWidth < x)
  }

  ghost predicate Progress(now: seq<Pixel>, before: seq<Pixel>, src: seq<Pixel>, g: Geometry, y: nat, x: nat) {
    && |now| == |before|
    && (g.fbWidth == 0 ==> now == before)
    && (g.fbWidth > 0 ==> forall i :: 0 <= i < |now| ==>
          now[i] == if Reached(g, i, y, x) then Drawn(before, src, g, i) else before[i])
  }

  lemma OnePixel(now: seq<Pixel>, next: seq<Pixel>, before: seq<Pixel>, src: seq<Pixel>, g: Geometry, y: nat, x: nat)
    requires Progress(now, before, src, g, y, x) && y < ClipHeight(g) && x < ClipWidth(g)
    requires var d, s := y * g.fbWidth + x, y * g.stride + x;
             next == if s < |src| && d < |now| then now[d := src[s]] else now
    ensures Progress(next, before, src, g, y, x + 1)
  {
    var d := y * g.fbWidth + x;
    Position(g.fbWidth, y, x);
    forall i | 0 <= i < |next| && i != d
      ensures Reached(g, i, y, x + 1) <==> Reached(g, i, y, x)
    {
      assert i == g.fbWidth * (i / g.fbWidth) + i % g.fbWidth;
      assert i / g.fbWidth == y ==> i == g.fbWidth * y + i % g.fbWidth;
    }
  }

  lemma RowDone(now: seq<Pixel>, before: seq<Pixel>, src: seq<Pixel>, g: Geometry, y: nat)
    requires Progress(now, before, src, g, y, ClipWidth(g))
    ensures Progress(now, before, src, g, y + 1, 0)
  {
  }

  method CopyPixels(fb: array<Pixel>, src: seq<Pixel>, g: Geometry)
    modifies fb
    ensures forall i :: 0 <= i < fb.Length ==> fb[i] == Drawn(old(fb[..]), src, g, i)
  {
    ghost var before := fb[..];
    for y := 0 to Min(g.bufHeight, g.fbHeight)
      invariant Progress(fb[..], before, src, g, y, 0)
    {
      for x := 0 to Min(g.bufWidth, g.fbWidth)
        invariant Progress(fb[..], before, src, g, y, x)
      {
        ghost var now := fb[..];
        var srcIdx := y * g.stride + x;
        var dstIdx := y * g.fbWidth + x;
        if srcIdx < |src| && dstIdx < fb.Length {
          fb[dstIdx] := src[srcIdx];
        }
        OnePixel(now, fb[..], before, src, g, y, x);
      }
      RowDone(fb[..], before, src, g, y);
    }
    assert forall i :: 0 <= i < fb.Length ==> fb[i] == fb[..][i];
  }

  /* ---------- when the whole clip is drawn ---------- */

  ghost predicate InClip(g: Geometry, y: nat, x: nat) {
    y < ClipHeight(g) && x < ClipWidth(g)
  }

  ghost predicate Copied(g: Geometry, srcLen: nat, fbLen: nat, y: nat, x: nat) {
    y * g.stride + x < srcLen && y * g.fbWidth + x < fbLen
  }

  // Two pixels of the clip never land on one position, so nothing is written twice.
  lemma OneDestination(g: Geometry, y: nat, x: nat, y': nat, x': nat)
    requires InClip(g, y, x) && InClip(g, y', x')
    requires y * g.fbWidth + x == y' * g.fbWidth + x'
    ensures y == y' && x == x'
  {
    Position(g.fbWidth, y, x);
    Position(g.fbWidth, y', x');
  }

  lemma PixelArrives(before: seq<Pixel>, src: seq<Pixel>, g: Geometry, y: nat, x: nat)
    requires InClip(g, y, x) && Copied(g, |src|, |before|, y, x)
    ensures Drawn(before, src, g, y * g.fbWidth + x) == src[y * g.stride + x]
  {
    Position(g.fbWidth, y, x);
  }

  lemma ChangedPixel(before: seq<Pixel>, src: seq<Pixel>, g: Geometry, i: nat) returns (y: nat, x: nat)
    requires i < |before| && Drawn(before, src, g, i) != before[i]
    ensures InClip(g, y, x) && Copied(g, |src|, |before|, y, x) && y * g.fbWidth + x == i
  {
    y, x := i / g.fbWidth, i % g.fbWidth;
    assert y * g.fbWidth + x == i;
  }

  // The copy pixel by pixel: a guarded clip pixel arrives, and a position no such pixel lands on is kept.
  lemma DrawnPixels(before: seq<Pixel>, src: seq<Pixel>, g: Geometry)
    ensures forall y: nat, x: nat :: InClip(g, y, x) && Copied(g, |src|, |before|, y, x) ==>
              Drawn(before, src, g, y * g.fbWidth + x) == src[y * g.stride + x]
    ensures forall i: nat :: i < |before|
              && (forall y: nat, x: nat :: InClip(g, y, x) && Copied(g, |src|, |before|, y, x) ==> y * g.fbWidth + x != i)
              ==> Drawn(before, src, g, i) == before[i]
  {
    hide Drawn;
    forall y: nat, x: nat | InClip(g, y, x) && Copied(g, |src|, |before|, y, x)
      ensures Drawn(before, src, g, y * g.fbWidth + x) == src[y * g.stride + x]
    {
      PixelArrives(before, src, g, y, x);
    }
    hide InClip, Copied;
    forall i: nat | i < |before| && Drawn(before, src, g, i) != before[i]
      ensures exists y: nat, x: nat :: InClip(g, y, x) && Copied(g, |src|, |before|, y, x) && y * g.fbWidth + x == i
    {
      var y, x := ChangedPixel(before, src, g, i);
    }
  }

  lemma LastPixelFurthest(g: Geometry, y: nat, x: nat)
    requires InClip(g, y, x)
    ensures y * g.stride + x <= (ClipHeight(g) - 1) * g.stride + ClipWidth(g) - 1
    ensures y * g.fbWidth + x <= (ClipHeight(g) - 1) * g.fbWidth + ClipWidth(g) - 1
  {
    var d := ClipHeight(g) - 1 - y;
    assert (y + d) * g.stride == y * g.stride + d * g.stride && d * g.stride >= 0;
    assert (y + d) * g.fbWidth == y * g.fbWidth + d * g.fbWidth && d * g.fbWidth >= 0;
  }

  // Every pixel of a non-empty clip is copied exactly when its last one passes both length guards.
  lemma WholeClipIff(g: Geometry, srcLen: nat, fbLen: nat)
    requires ClipWidth(g) > 0 && ClipHeight(g) > 0
    ensures (forall y: nat, x: nat :: InClip(g, y, x) ==> Copied(g, srcLen, fbLen, y, x))
            <==> Copied(g, srcLen, fbLen, ClipHeight(g) - 1, ClipWidth(g) - 1)
  {
    assert InClip(g, ClipHeight(g) - 1, ClipWidth(g) - 1);
    if Copied(g, srcLen, fbLen, ClipHeight(g) - 1, ClipWidth(g) - 1) {
      forall y: nat, x: nat | InClip(g, y, x)
        ensures Copied(g, srcLen, fbLen, y, x)
      {
        LastPixelFurthest(g, y, x);
      }
    }
  }

  lemma RowFits(h: nat, w: nat, y: nat, x: nat)
    requires y < h && x < w
    ensures y * w + x < w * h
  {
    var d := h - y - 1;
    assert h * w == (y + 1 + d) * w == y * w + w + d * w;
    assert d * w >= 0;
  }

  // Buffer rows without gaps and a framebuffer of full size: row by row, the buffer's top-left part
  // over what was on the screen.
  lemma PackedBlitExact(before: seq<Pixel>, src: seq<Pixel>, g: Geometry, y: nat, x: nat)
    requires g.stride == g.bufWidth && |src| == g.bufWidth * g.bufHeight
    requires |before| == g.fbWidth * g.fbHeight
    requires y < g.fbHeight && x < g.fbWidth
    ensures y * g.fbWidth + x < |before|
    ensures y < g.bufHeight && x < g.bufWidth ==>
              y * g.bufWidth + x < |src| && Drawn(before, src, g, y * g.fbWidth + x) == src[y * g.bufWidth + x]
    ensures y >= g.bufHeight || x >= g.bufWidth ==>
              Drawn(before, src, g, y * g.fbWidth + x) == before[y * g.fbWidth + x]
  {
    RowFits(g.fbHeight, g.fbWidth, y, x);
    Position(g.fbWidth, y, x);
    if y < g.bufHeight && x < g.bufWidth {
      RowFits(g.bufHeight, g.bufWidth, y, x);
    }
  }

  // The source slice is counted as width * height pixels whatever the stride. With gaps between the
  // rows it ends too early: of a 2 by 2 buffer with stride 3 the last pixel is never copied.
  lemma PaddedRowsCut()
    ensures var g := Geometry(2, 2, 3, 2, 2); InClip(g, 1, 1) && !Copied(g, 4, 4, 1, 1)
  {
  }

  // The length of the framebuffer slice is a product of two sixteen-bit numbers, which wraps.
  function SliceLength(g: Geometry): nat {
    g.fbWidth * g.fbHeight % 0x1_0000
  }

  // So the last pixel of a full-screen packed buffer is copied exactly when the pixel count of the
  // screen fits sixteen bits.
  lemma FullScreenIff(g: Geometry)
    requires g.bufWidth == g.stride == g.fbWidth > 0 && g.bufHeight == g.fbHeight > 0
    ensures Copied(g, g.bufWidth * g.bufHeight, SliceLength(g), g.fbHeight - 1, g.fbWidth - 1)
            <==> g.fbWidth * g.fbHeight < 0x1_0000
  {
    var n := g.fbWidth * g.fbHeight;
    assert (g.fbHeight - 1) * g.fbWidth + g.fbWidth - 1 == n - 1 by {
      assert (g.fbHeight - 1) * g.fbWidth == g.fbHeight * g.fbWidth - g.fbWidth;
    }
    assert n > 0;
    assert n % 0x1_0000 <= n && n % 0x1_0000 < 0x1_0000;
  }
}
