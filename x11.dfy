/** Window placement of src/x11.rs: from an origin corner, offsets, a window
    size and the screen size to window coordinates. The source's casts are
    written out: `u32 as i32` and `i32 as i16` keep the low bits, and i32
    subtraction wraps. */
module X11 {
  import opened Integers
  import opened Config

  /** The placement fields of an `X11Window`. */
  datatype X11Window = X11Window(origin: Origin, offsetX: U32, offsetY: U32, screenWidth: U16, screenHeight: U16)

  predicate IsLeftAnchored(o: Origin)
  {
    o == TopLeft || o == BottomLeft
  }

  predicate IsTopAnchored(o: Origin)
  {
    o == TopLeft || o == TopRight
  }

  /** Wrapping i32 subtraction. */
  function Sub32(a: I32, b: I32): I32
  {
    WrapI32(a - b)
  }

  /** The distance `screen - size - offset`, computed in wrapping i32
      arithmetic over the cast operands, is the exact distance wrapped once. */
  lemma FarEdgeDistance(screen: U16, size: U32, offset: U32)
    ensures Sub32(Sub32(screen, WrapI32(size)), WrapI32(offset)) == WrapI32(screen - size - offset)
  {
    WrapI32Sub(screen, size);
    assert WrapI32(screen) == screen;
    WrapI32Sub(screen - size, offset);
  }

  /** `X11Window::calculate_position`: the coordinates without clamping. A left
      anchor puts the window at the horizontal offset, a right anchor leaves the
      offset between the window's right edge and the screen's; likewise for top
      and bottom. */
  function CalculatePosition(window: X11Window, width: U32, height: U32): (pos: (I32, I32))
    ensures pos.0 == WrapI32(if IsLeftAnchored(window.origin) then window.offsetX
                             else window.screenWidth - width - window.offsetX)
    ensures pos.1 == WrapI32(if IsTopAnchored(window.origin) then window.offsetY
                             else window.screenHeight - height - window.offsetY)
  {
    var screenW: I32 := window.screenWidth;
    var screenH: I32 := window.screenHeight;
    var offsetX := WrapI32(window.offsetX);
    var offsetY := WrapI32(window.offsetY);
    var w := WrapI32(width);
    var h := WrapI32(height);
    FarEdgeDistance(window.screenWidth, width, window.offsetX);
    FarEdgeDistance(window.screenHeight, height, window.offsetY);
    match window.origin
    case TopLeft => (offsetX, offsetY)
    case TopRight => (Sub32(Sub32(screenW, w), offsetX), offsetY)
    case BottomLeft => (offsetX, Sub32(Sub32(screenH, h), offsetY))
    case BottomRight => (Sub32(Sub32(screenW, w), offsetX), Sub32(Sub32(screenH, h), offsetY))
  }

  function Max0(n: int): nat
  {
    if n < 0 then 0 else n
  }

  /** `calculate_position_from_origin`: the same placement, each coordinate
      raised to at least 0 and then cast to i16. */
  function CalculatePositionFromOrigin(origin: Origin, offsetX: U32, offsetY: U32, width: U32, height: U32,
                                       screenWidth: U16, screenHeight: U16): (pos: (I16, I16))
    ensures var unclamped := CalculatePosition(X11Window(origin, offsetX, offsetY, screenWidth, screenHeight), width, height);
            pos == (WrapI16(Max0(unclamped.0)), WrapI16(Max0(unclamped.1)))
  {
    var screenW: I32 := screenWidth;
    var screenH: I32 := screenHeight;
    var offX := WrapI32(offsetX);
    var offY := WrapI32(offsetY);
    var w := WrapI32(width);
    var h := WrapI32(height);
    var (x, y) :=
      match origin
      case TopLeft => (offX, offY)
      case TopRight => (Sub32(Sub32(screenW, w), offX), offY)
      case BottomLeft => (offX, Sub32(Sub32(screenH, h), offY))
      case BottomRight => (Sub32(Sub32(screenW, w), offX), Sub32(Sub32(screenH, h), offY));
    (WrapI16(Max0(x)), WrapI16(Max0(y)))
  }

  /** No cast or subtraction wraps, and the clamped coordinates fit in i16. */
  predicate FitsScreen(offsetX: U32, offsetY: U32, width: U32, height: U32, screenWidth: U16, screenHeight: U16)
  {
    && offsetX + width < 0x8000_0000 && offsetY + height < 0x8000_0000
    && offsetX < 0x8000 && offsetY < 0x8000
    && screenWidth < 0x8000 && screenHeight < 0x8000
  }

  /** On a screen that fits, the window keeps its offset from the anchored
      edges whenever that leaves it on screen, and is pinned to 0 otherwise:
      a coordinate is never negative. */
  lemma PlacementOnScreen(origin: Origin, offsetX: U32, offsetY: U32, width: U32, height: U32,
                          screenWidth: U16, screenHeight: U16)
    requires FitsScreen(offsetX, offsetY, width, height, screenWidth, screenHeight)
    ensures var pos := CalculatePositionFromOrigin(origin, offsetX, offsetY, width, height, screenWidth, screenHeight);
            && pos.0 >= 0 && pos.1 >= 0
            && (IsLeftAnchored(origin) ==> pos.0 == offsetX)
            && (!IsLeftAnchored(origin) ==> pos.0 == Max0(screenWidth - width - offsetX))
            && (IsTopAnchored(origin) ==> pos.1 == offsetY)
            && (!IsTopAnchored(origin) ==> pos.1 == Max0(screenHeight - height - offsetY))
  {
  }

  /** Right and bottom anchors: when the window is not pinned, the offset is
      exactly the gap between the window's far edge and the screen's. */
  lemma FarAnchorGap(origin: Origin, offsetX: U32, offsetY: U32, width: U32, height: U32,
                     screenWidth: U16, screenHeight: U16)
    requires FitsScreen(offsetX, offsetY, width, height, screenWidth, screenHeight)
    ensures var pos := CalculatePositionFromOrigin(origin, offsetX, offsetY, width, height, screenWidth, screenHeight);
            && (!IsLeftAnchored(origin) && width + offsetX <= screenWidth ==> pos.0 + width + offsetX == screenWidth)
            && (!IsTopAnchored(origin) && height + offsetY <= screenHeight ==> pos.1 + height + offsetY == screenHeight)
  {
    PlacementOnScreen(origin, offsetX, offsetY, width, height, screenWidth, screenHeight);
  }

  /** Offset (10, 20) and size 200x100 on a 1920x1080 screen: bottom-right gives
      (1710, 960), top-left gives (10, 20). */
  lemma PlacementExamples()
    ensures CalculatePositionFromOrigin(BottomRight, 10, 20, 200, 100, 1920, 1080) == (1710, 960)
    ensures CalculatePositionFromOrigin(TopLeft, 10, 20, 200, 100, 1920, 1080) == (10, 20)
  {
  }

  /** An offset of 2^31 or more turns negative in the cast to i32, so a window
      anchored at that offset's edge is pinned to 0, whatever the other inputs. */
  lemma HugeOffsetPinned(origin: Origin, offsetX: U32, offsetY: U32, width: U32, height: U32,
                         screenWidth: U16, screenHeight: U16)
    ensures var pos := CalculatePositionFromOrigin(origin, offsetX, offsetY, width, height, screenWidth, screenHeight);
            && (IsLeftAnchored(origin) && offsetX >= 0x8000_0000 ==> pos.0 == 0)
            && (IsTopAnchored(origin) && offsetY >= 0x8000_0000 ==> pos.1 == 0)
  {
  }

  /** The final cast to i16 keeps only the low 16 bits: on a screen 65535 pixels
      wide a zero-width window anchored top-right lands at -1. */
  lemma WideScreenWraps()
    ensures CalculatePositionFromOrigin(TopRight, 0, 0, 0, 0, 65535, 0).0 == -1
  {
  }

  /** A width of 2^31 or more turns negative in the cast to i32, so a window
      anchored on the right of a small screen can still land at a negative x:
      the size bound of `FitsScreen` is needed as well as the small screen. */
  lemma HugeWidthWraps()
    ensures CalculatePositionFromOrigin(TopRight, 0, 0, TWO_32 - 40000, 0, 100, 0).0 == -25436
  {
  }
}
