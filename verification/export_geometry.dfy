/** The geometry of exporting animation frames (src/src/utils/exportUtils.js):
    the bounding box of all frames in world coordinates, padding sizes to even
    numbers, and the offsets written for each frame in the trimmed and the
    equal-size modes. Coordinates are integers; drawing, PNG encoding and file
    writing are not part of this model. */
module ExportGeometry {
  import opened Wrappers

  /** The natural size of a frame's loaded image. */
  datatype Size = Size(w: nat, h: nat)

  /** A frame: its id, its origin inside the image (`shift_left`,
      `shift_up`), its loaded image if any, and its delay. */
  datatype Frame = Frame(id: string, shiftLeft: int, shiftUp: int, image: Option<Size>, delay: int)

  /** The global bounding box and the position of the world origin on a
      canvas whose top-left corner is (minX, minY). */
  datatype Bounds = Bounds(minX: int, minY: int, width: int, height: int, anchorX: int, anchorY: int)

  /** World coordinates of an image's edges: its top-left corner is at
      (-shift_left, -shift_up). */
  function Left(f: Frame): int { -f.shiftLeft }
  function Top(f: Frame): int { -f.shiftUp }

  function Right(f: Frame): int
    requires f.image.Some?
  {
    Left(f) + f.image.value.w
  }

  function Bottom(f: Frame): int
    requires f.image.Some?
  {
    Top(f) + f.image.value.h
  }

  predicate HasImage(f: Frame) {
    f.image.Some?
  }

  predicate NoImages(frames: seq<Frame>) {
    forall i :: 0 <= i < |frames| ==> !HasImage(frames[i])
  }

  /** Every image lies inside the box. */
  predicate Encloses(b: Bounds, frames: seq<Frame>) {
    forall i :: 0 <= i < |frames| && HasImage(frames[i]) ==>
      && b.minX <= Left(frames[i]) && Right(frames[i]) <= b.minX + b.width
      && b.minY <= Top(frames[i]) && Bottom(frames[i]) <= b.minY + b.height
  }

  /** Every edge of the box is an edge of some image: the box is the
      smallest that encloses them. */
  predicate Tight(b: Bounds, frames: seq<Frame>) {
    && (exists i :: 0 <= i < |frames| && HasImage(frames[i]) && Left(frames[i]) == b.minX)
    && (exists i :: 0 <= i < |frames| && HasImage(frames[i]) && Top(frames[i]) == b.minY)
    && (exists i :: 0 <= i < |frames| && HasImage(frames[i]) && Right(frames[i]) == b.minX + b.width)
    && (exists i :: 0 <= i < |frames| && HasImage(frames[i]) && Bottom(frames[i]) == b.minY + b.height)
  }

  /** `calculateGlobalBounds`: frames without an image are ignored; with no
      image at all there is no box. */
  method CalculateGlobalBounds(frames: seq<Frame>) returns (r: Option<Bounds>)
    ensures r.None? <==> NoImages(frames)
    ensures r.Some? ==> Encloses(r.value, frames) && Tight(r.value, frames)
    ensures r.Some? ==> r.value.anchorX == -r.value.minX && r.value.anchorY == -r.value.minY
    ensures r.Some? ==> r.value.width >= 0 && r.value.height >= 0
  {
    var found := false;
    var minX, maxX, minY, maxY := 0, 0, 0, 0;
    ghost var wMinX, wMaxX, wMinY, wMaxY := 0, 0, 0, 0;
    var k := 0;
    while k < |frames|
      invariant 0 <= k <= |frames|
      invariant !found <==> NoImages(frames[..k])
      invariant found ==> minX <= maxX && minY <= maxY
      invariant found ==> forall i :: 0 <= i < k && HasImage(frames[i]) ==>
        minX <= Left(frames[i]) && Right(frames[i]) <= maxX && minY <= Top(frames[i]) && Bottom(frames[i]) <= maxY
      invariant found ==>
        && 0 <= wMinX < k && HasImage(frames[wMinX]) && Left(frames[wMinX]) == minX
        && 0 <= wMaxX < k && HasImage(frames[wMaxX]) && Right(frames[wMaxX]) == maxX
        && 0 <= wMinY < k && HasImage(frames[wMinY]) && Top(frames[wMinY]) == minY
        && 0 <= wMaxY < k && HasImage(frames[wMaxY]) && Bottom(frames[wMaxY]) == maxY
    {
      var f := frames[k];
      if f.image.Some? {
        var left, top := -f.shiftLeft, -f.shiftUp;
        var right, bottom := left + f.image.value.w, top + f.image.value.h;
        if !found || left < minX { minX, wMinX := left, k; }
        if !found || top < minY { minY, wMinY := top, k; }
        if !found || right > maxX { maxX, wMaxX := right, k; }
        if !found || bottom > maxY { maxY, wMaxY := bottom, k; }
        found := true;
      }
      assert frames[..k + 1] == frames[..k] + [f];
      k := k + 1;
    }
    assert frames[..k] == frames;
    if !found {
      return None;
    }
    var width, height := maxX - minX, maxY - minY;
    return Some(Bounds(minX, minY, width, height, -minX, -minY));
  }

  /** `n % 2 !== 0 ? n + 1 : n`: the smallest even number not below `n`. */
  function EvenUp(n: nat): (r: nat)
    ensures r % 2 == 0
    ensures n <= r <= n + 1
    ensures n % 2 == 0 ==> r == n
  {
    if n % 2 != 0 then n + 1 else n
  }

  /** Padding an already padded size changes nothing, and halving a padded
      size is exact. */
  lemma EvenUpIdempotent(n: nat)
    ensures EvenUp(EvenUp(n)) == EvenUp(n)
    ensures 2 * (EvenUp(n) / 2) == EvenUp(n)
  {
  }

  /** Frame `i` is the last frame with an image and its id. */
  predicate LastImageWithId(frames: seq<Frame>, i: int)
    requires 0 <= i < |frames|
  {
    HasImage(frames[i]) &&
    forall j :: i < j < |frames| && HasImage(frames[j]) ==> frames[j].id != frames[i].id
  }

  /** The ids of the frames that have an image. */
  function ImageIds(frames: seq<Frame>): set<string> {
    set i | 0 <= i < |frames| && HasImage(frames[i]) :: frames[i].id
  }

  /** The JSON object both modes build: `jsonOutput[frame.id] = entry(...)`
      for every frame with an image, in frame order, so a later frame with
      the same id replaces an earlier one. */
  function EntriesFor<E>(frames: seq<Frame>, entry: (Frame, Size) -> E): (out: map<string, E>)
    ensures out.Keys == ImageIds(frames)
    ensures forall i :: 0 <= i < |frames| && LastImageWithId(frames, i) ==>
      out[frames[i].id] == entry(frames[i], frames[i].image.value)
  {
    if |frames| == 0 then map[]
    else
      var init := frames[..|frames| - 1];
      var f := frames[|frames| - 1];
      var before := EntriesFor(init, entry);
      ImageIdsSnoc(frames);
      LastImageSnoc(frames);
      if f.image.None? then before
      else before[f.id := entry(f, f.image.value)]
  }

  lemma ImageIdsSnoc(frames: seq<Frame>)
    requires |frames| > 0
    ensures ImageIds(frames) == ImageIds(frames[..|frames| - 1]) +
      (if HasImage(frames[|frames| - 1]) then {frames[|frames| - 1].id} else {})
  {
    var init := frames[..|frames| - 1];
    assert forall i :: 0 <= i < |init| ==> init[i] == frames[i];
  }

  /** A frame that is last with its id in a longer sequence is last with its
      id in the shorter one too, and its id differs from the new frame's. */
  lemma LastImageSnoc(frames: seq<Frame>)
    requires |frames| > 0
    ensures forall i :: 0 <= i < |frames| - 1 && LastImageWithId(frames, i) ==>
      && LastImageWithId(frames[..|frames| - 1], i)
      && (HasImage(frames[|frames| - 1]) ==> frames[i].id != frames[|frames| - 1].id)
      && frames[..|frames| - 1][i] == frames[i]
  {
  }

  /** An entry of the trimmed mode. */
  datatype TrimmedEntry = TrimmedEntry(x: int, y: int, delay: int)

  /** Trimmed mode: the image is padded to even size on its own canvas, and
      the entry gives the origin relative to the canvas centre (x measured
      leftwards, y downwards). */
  function TrimmedEntryOf(f: Frame, s: Size): TrimmedEntry {
    var targetW, targetH := EvenUp(s.w), EvenUp(s.h);
    TrimmedEntry(targetW / 2 - f.shiftLeft, f.shiftUp - targetH / 2, f.delay)
  }

  /** The trimmed entry of a frame with an image places the frame's origin
      relative to the centre of its padded canvas: the offsets are whole
      numbers because the padded sizes are even. */
  predicate CentredOn(f: Frame, e: TrimmedEntry)
    requires f.image.Some?
  {
    && 2 * (e.x + f.shiftLeft) == EvenUp(f.image.value.w)
    && 2 * (f.shiftUp - e.y) == EvenUp(f.image.value.h)
    && e.delay == f.delay
  }

  /** `exportTrimmedMode`: one entry per id of a frame with an image, from
      the last such frame; frames without an image are absent. */
  function ExportTrimmed(frames: seq<Frame>): (out: map<string, TrimmedEntry>)
    ensures out.Keys == ImageIds(frames)
    ensures forall i :: 0 <= i < |frames| && LastImageWithId(frames, i) ==>
      CentredOn(frames[i], out[frames[i].id])
  {
    EntriesFor(frames, TrimmedEntryOf)
  }

  /** An entry of the equal-size mode. */
  datatype EqualEntry = EqualEntry(x: int, y: int, delay: int, canvasW: int, canvasH: int)

  /** Where an image is drawn on the shared canvas. */
  datatype Placement = Placement(drawX: int, drawY: int)

  /** The result of the equal-size mode: the global bounding box, the
      shared canvas size, the placement of each frame (none for frames
      without an image) and the JSON entries. */
  datatype EqualLayout = EqualLayout(
    bounds: Bounds,
    canvasW: nat,
    canvasH: nat,
    placements: seq<Option<Placement>>,
    entries: map<string, EqualEntry>)

  /** The error the equal-size mode throws when there is no bounding box. */
  datatype ExportError = NoBounds

  /** The image's top-left corner relative to the canvas's top-left corner. */
  function PlacementOf(b: Bounds, f: Frame): Placement {
    Placement(Left(f) - b.minX, Top(f) - b.minY)
  }

  /** Every image of an enclosing box, drawn at its placement, lies on a
      canvas at least as large as the box. */
  lemma PlacementFits(b: Bounds, frames: seq<Frame>, i: nat, canvasW: int, canvasH: int)
    requires Encloses(b, frames)
    requires i < |frames| && HasImage(frames[i])
    requires b.width <= canvasW && b.height <= canvasH
    ensures 0 <= PlacementOf(b, frames[i]).drawX
    ensures PlacementOf(b, frames[i]).drawX + frames[i].image.value.w <= canvasW
    ensures 0 <= PlacementOf(b, frames[i]).drawY
    ensures PlacementOf(b, frames[i]).drawY + frames[i].image.value.h <= canvasH
  {
  }

  /** Every image is drawn wholly inside the canvas, and exactly the frames
      with an image are drawn. */
  predicate DrawnInside(frames: seq<Frame>, l: EqualLayout) {
    && |l.placements| == |frames|
    && (forall i :: 0 <= i < |frames| ==> (l.placements[i].Some? <==> HasImage(frames[i])))
    && (forall i :: 0 <= i < |frames| && HasImage(frames[i]) ==>
          && 0 <= l.placements[i].value.drawX
          && l.placements[i].value.drawX + frames[i].image.value.w <= l.canvasW
          && 0 <= l.placements[i].value.drawY
          && l.placements[i].value.drawY + frames[i].image.value.h <= l.canvasH)
  }

  /** The canvas is the bounding box padded to even size, and every image is
      drawn at its top-left corner minus the box's: so every frame's origin
      falls on the same canvas point, the box's anchor. */
  predicate AlignedByOrigin(frames: seq<Frame>, l: EqualLayout) {
    && l.bounds.width >= 0 && l.bounds.height >= 0
    && l.canvasW == EvenUp(l.bounds.width) && l.canvasH == EvenUp(l.bounds.height)
    && |l.placements| == |frames|
    && forall i :: 0 <= i < |frames| && HasImage(frames[i]) ==>
         && l.placements[i] == Some(Placement(-frames[i].shiftLeft - l.bounds.minX, -frames[i].shiftUp - l.bounds.minY))
         && l.placements[i].value.drawX + frames[i].shiftLeft == l.bounds.anchorX
         && l.placements[i].value.drawY + frames[i].shiftUp == l.bounds.anchorY
  }

  /** Every entry gives the same origin, `x = min_x + canvas_w / 2` and
      `y = -min_y - canvas_h / 2`, and the layout's canvas size. */
  predicate EntriesAtOrigin(l: EqualLayout) {
    forall id :: id in l.entries ==>
      && l.entries[id].x == l.bounds.minX + l.canvasW / 2
      && l.entries[id].y == -l.bounds.minY - l.canvasH / 2
      && l.entries[id].canvasW == l.canvasW
      && l.entries[id].canvasH == l.canvasH
  }

  /** Each entry carries the delay of the last frame with its id. */
  predicate DelaysKept(frames: seq<Frame>, l: EqualLayout) {
    forall i {:trigger LastImageWithId(frames, i)} :: 0 <= i < |frames| && LastImageWithId(frames, i) ==>
      frames[i].id in l.entries && l.entries[frames[i].id].delay == frames[i].delay
  }

  /** What equal mode promises of its layout: the box is the tight global
      bounding box with the world origin as anchor, the images are aligned
      by origin and drawn inside the canvas, and there is one entry per image
      id, at the origin and with its frame's delay. */
  predicate EqualModeLayout(frames: seq<Frame>, l: EqualLayout) {
    && Encloses(l.bounds, frames) && Tight(l.bounds, frames)
    && l.bounds.anchorX == -l.bounds.minX && l.bounds.anchorY == -l.bounds.minY
    && AlignedByOrigin(frames, l)
    && DrawnInside(frames, l)
    && l.entries.Keys == ImageIds(frames)
    && EntriesAtOrigin(l)
    && DelaysKept(frames, l)
  }

  /** `exportEqualMode`. */
  method ExportEqualMode(frames: seq<Frame>) returns (r: Result<EqualLayout, ExportError>)
    ensures r.Failure? <==> NoImages(frames)
    ensures r.Success? ==> EqualModeLayout(frames, r.value)
    ensures r.Success? ==> r.value.canvasW % 2 == 0 && r.value.canvasH % 2 == 0
  {
    var bounds := CalculateGlobalBounds(frames);
    if bounds.None? {
      return Failure(NoBounds);
    }
    var b := bounds.value;
    var l := LayoutFor(frames, b);
    PlacementsAligned(frames, l);
    LayoutDrawnInside(frames, b);
    LayoutEntries(frames, b);
    return Success(l);
  }

  /** The layout `exportEqualMode` builds from the bounding box: the padded
      canvas, each image's corner relative to the box's, and one entry per
      id carrying the world origin relative to the canvas centre. */
  function LayoutFor(frames: seq<Frame>, b: Bounds): (l: EqualLayout)
    requires b.width >= 0 && b.height >= 0 && b.anchorX == -b.minX && b.anchorY == -b.minY
    ensures l.bounds == b && l.placements == Placements(frames, b)
    ensures l.canvasW == EvenUp(b.width) && l.canvasH == EvenUp(b.height)
  {
    var canvasW, canvasH := EvenUp(b.width), EvenUp(b.height);
    var x, y := -b.anchorX + canvasW / 2, b.anchorY - canvasH / 2;
    EqualLayout(b, canvasW, canvasH, Placements(frames, b),
      EntriesFor(frames, (f: Frame, s: Size) => EqualEntry(x, y, f.delay, canvasW, canvasH)))
  }

  /** The placement of every frame with an image, in frame order. */
  function Placements(frames: seq<Frame>, b: Bounds): (ps: seq<Option<Placement>>)
    ensures |ps| == |frames|
    ensures forall i :: 0 <= i < |frames| ==>
      ps[i] == (if HasImage(frames[i]) then Some(PlacementOf(b, frames[i])) else None)
  {
    seq(|frames|, i requires 0 <= i < |frames| =>
      if HasImage(frames[i]) then Some(PlacementOf(b, frames[i])) else None)
  }

  /** A layout whose canvas is the padded box and whose placements are
      taken relative to the box's corner is aligned by origin. */
  lemma PlacementsAligned(frames: seq<Frame>, l: EqualLayout)
    requires l.bounds.width >= 0 && l.bounds.height >= 0
    requires l.bounds.anchorX == -l.bounds.minX && l.bounds.anchorY == -l.bounds.minY
    requires l.canvasW == EvenUp(l.bounds.width) && l.canvasH == EvenUp(l.bounds.height)
    requires l.placements == Placements(frames, l.bounds)
    ensures AlignedByOrigin(frames, l)
  {
  }

  /** An enclosing box puts every image wholly on the padded canvas. */
  lemma LayoutDrawnInside(frames: seq<Frame>, b: Bounds)
    requires b.width >= 0 && b.height >= 0 && b.anchorX == -b.minX && b.anchorY == -b.minY
    requires Encloses(b, frames)
    ensures DrawnInside(frames, LayoutFor(frames, b))
  {
    var l := LayoutFor(frames, b);
    forall i | 0 <= i < |frames| && HasImage(frames[i])
      ensures 0 <= l.placements[i].value.drawX && l.placements[i].value.drawX + frames[i].image.value.w <= l.canvasW
      ensures 0 <= l.placements[i].value.drawY && l.placements[i].value.drawY + frames[i].image.value.h <= l.canvasH
    {
      PlacementFits(b, frames, i, l.canvasW, l.canvasH);
    }
  }

  /** The entries: one per image id, all at the same origin, each with its
      last frame's delay. */
  lemma LayoutEntries(frames: seq<Frame>, b: Bounds)
    requires b.width >= 0 && b.height >= 0 && b.anchorX == -b.minX && b.anchorY == -b.minY
    ensures LayoutFor(frames, b).entries.Keys == ImageIds(frames)
    ensures EntriesAtOrigin(LayoutFor(frames, b))
    ensures DelaysKept(frames, LayoutFor(frames, b))
  {
    var l := LayoutFor(frames, b);
    forall id | id in l.entries
      ensures l.entries[id].x == l.bounds.minX + l.canvasW / 2 && l.entries[id].y == -l.bounds.minY - l.canvasH / 2
      ensures l.entries[id].canvasW == l.canvasW && l.entries[id].canvasH == l.canvasH
    {
      var i := LastIndexWithId(frames, id);
    }
  }

  /** The index of the last frame with an image and the given id. */
  function LastIndexWithId(frames: seq<Frame>, id: string): (i: nat)
    requires id in ImageIds(frames)
    ensures i < |frames| && LastImageWithId(frames, i) && frames[i].id == id
  {
    var f := frames[|frames| - 1];
    if HasImage(f) && f.id == id then |frames| - 1
    else
      var init := frames[..|frames| - 1];
      assert forall i :: 0 <= i < |init| ==> init[i] == frames[i];
      assert id in ImageIds(init) by {
        var k :| 0 <= k < |frames| && HasImage(frames[k]) && frames[k].id == id;
        assert k < |frames| - 1;
      }
      LastIndexWithId(init, id)
  }
}
