/**
 * Viewport: a rectangle of the frame or of a parent viewport, given by its
 * left and top margins and its size, all 32-bit unsigned. Viewports are
 * activated on a process-wide stack; the one on top is the rectangle that
 * is handed to OpenGL, which the model records as the stack's applied area.
 */
module Viewports {
  import opened Wrappers

  const UIntLimit: int := 0x1_0000_0000

  type UInt = x: int | 0 <= x < 0x1_0000_0000

  /** A rectangle: left and top margin, width and height. */
  datatype Area = Area(left: UInt, top: UInt, width: UInt, height: UInt)

  /** What a viewport lies in: the frame of a frame renderer, of the given size, or another viewport. */
  datatype Parent = Frame(width: UInt, height: UInt) | Nested(viewport: Viewport)

  /**
   * The square, centred area of a `width` x `height` frame: its side is the
   * smaller dimension, and it lies inside the frame with the margins on
   * either side differing by at most one.
   */
  function Square(width: UInt, height: UInt): (a: Area)
    ensures a.width == a.height && (a.width == width || a.width == height)
    ensures a.width <= width && a.height <= height
    ensures a.left + a.width <= width && a.top + a.height <= height
    ensures -1 <= (width - a.left - a.width) - a.left <= 1
    ensures -1 <= (height - a.top - a.height) - a.top <= 1
  {
    var s := if width < height then width else height;
    Area(width / 2 - s / 2, height / 2 - s / 2, s, s)
  }

  /** The stack of active viewports, and the area last handed to OpenGL. */
  class ViewportStack {
    var viewports: seq<Viewport>
    var applied: Option<Area>

    constructor()
      ensures viewports == [] && applied.None?
    {
      viewports := [];
      applied := None;
    }
  }

  class Viewport {
    const parent: Parent
    var left: UInt
    var top: UInt
    var width: UInt
    var height: UInt

    /**
     * The root viewport of a frame: the centred square if `fitSquare`, the
     * whole frame with zero margins otherwise.
     */
    constructor Root(frameWidth: UInt, frameHeight: UInt, fitSquare: bool)
      ensures parent == Frame(frameWidth, frameHeight)
      ensures fitSquare ==> Area(left, top, width, height) == Square(frameWidth, frameHeight)
      ensures !fitSquare ==> left == 0 && top == 0 && width == frameWidth && height == frameHeight
    {
      parent := Frame(frameWidth, frameHeight);
      if fitSquare {
        var s := if frameWidth < frameHeight then frameWidth else frameHeight;
        width, height := s, s;
        top := frameHeight / 2 - s / 2;
        left := frameWidth / 2 - s / 2;
      } else {
        left, top := 0, 0;
        width, height := frameWidth, frameHeight;
      }
    }

    /** A viewport inside `parent`, with the given margins and size. */
    constructor Inside(parent: Viewport, left: UInt, top: UInt, width: UInt, height: UInt)
      ensures this.parent == Nested(parent)
      ensures this.left == left && this.top == top && this.width == width && this.height == height
    {
      this.parent := Nested(parent);
      this.left, this.top, this.width, this.height := left, top, width, height;
    }

    function Rectangle(): Area
      reads this
    {
      Area(left, top, width, height)
    }

    function ParentObjects(): set<object>
    {
      if parent.Nested? then {parent.viewport} else {}
    }

    function ParentWidth(): UInt
      reads this, ParentObjects()
    {
      match parent
      case Frame(w, _) => w
      case Nested(p) => p.width
    }

    function ParentHeight(): UInt
      reads this, ParentObjects()
    {
      match parent
      case Frame(_, h) => h
      case Nested(p) => p.height
    }

    /**
     * marginRight: the parent's width less the left margin and the width,
     * in 32-bit unsigned arithmetic; when the viewport fits into its parent
     * the three add up to the parent's width.
     */
    function MarginRight(): (r: UInt)
      reads this, ParentObjects()
      ensures left + width <= ParentWidth() ==> left + width + r == ParentWidth()
      ensures (left + width + r) % UIntLimit == ParentWidth()
    {
      (ParentWidth() - left - width) % UIntLimit
    }

    /** marginBottom: as marginRight, vertically. */
    function MarginBottom(): (r: UInt)
      reads this, ParentObjects()
      ensures top + height <= ParentHeight() ==> top + height + r == ParentHeight()
      ensures (top + height + r) % UIntLimit == ParentHeight()
    {
      (ParentHeight() - top - height) % UIntLimit
    }

    /** isActive: this viewport is on top of the stack. */
    predicate IsActive(stack: ViewportStack)
      reads stack
    {
      stack.viewports != [] && stack.viewports[|stack.viewports| - 1] == this
    }

    /** makeActive: pushes this viewport and applies it, unless it is already on top. */
    method MakeActive(stack: ViewportStack)
      modifies stack
      ensures IsActive(stack)
      ensures old(IsActive(stack)) ==> stack.viewports == old(stack.viewports) && stack.applied == old(stack.applied)
      ensures !old(IsActive(stack)) ==> stack.viewports == old(stack.viewports) + [this] && stack.applied == Some(Rectangle())
    {
      if !IsActive(stack) {
        stack.viewports := stack.viewports + [this];
        stack.applied := Some(Rectangle());
      }
    }

    /** done: asserts this viewport is on top, pops it and re-applies the viewport below, if any. */
    method Done(stack: ViewportStack)
      requires IsActive(stack)
      modifies stack
      ensures stack.viewports == old(stack.viewports)[..|old(stack.viewports)| - 1]
      ensures stack.viewports == [] ==> stack.applied == old(stack.applied)
      ensures stack.viewports != [] ==> stack.applied == Some(stack.viewports[|stack.viewports| - 1].Rectangle())
    {
      stack.viewports := stack.viewports[..|stack.viewports| - 1];
      if stack.viewports != [] {
        stack.applied := Some(stack.viewports[|stack.viewports| - 1].Rectangle());
      }
    }

    /** The destructor: a viewport still on top is done. */
    method Destroy(stack: ViewportStack)
      modifies stack
      ensures !old(IsActive(stack)) ==> stack.viewports == old(stack.viewports) && stack.applied == old(stack.applied)
      ensures old(IsActive(stack)) ==> stack.viewports == old(stack.viewports)[..|old(stack.viewports)| - 1]
      ensures old(IsActive(stack)) && stack.viewports == [] ==> stack.applied == old(stack.applied)
      ensures old(IsActive(stack)) && stack.viewports != [] ==>
        stack.applied == Some(stack.viewports[|stack.viewports| - 1].Rectangle())
    {
      if IsActive(stack) {
        Done(stack);
      }
    }

    /** setWidth: asserts the viewport is not active. */
    method SetWidth(stack: ViewportStack, width: UInt)
      requires !IsActive(stack)
      modifies this
      ensures Rectangle() == old(Rectangle()).(width := width)
    {
      this.width := width;
    }

    /** setHeight: asserts the viewport is not active. */
    method SetHeight(stack: ViewportStack, height: UInt)
      requires !IsActive(stack)
      modifies this
      ensures Rectangle() == old(Rectangle()).(height := height)
    {
      this.height := height;
    }

    /** setMarginLeft: asserts the viewport is not active. */
    method SetMarginLeft(stack: ViewportStack, marginLeft: UInt)
      requires !IsActive(stack)
      modifies this
      ensures Rectangle() == old(Rectangle()).(left := marginLeft)
    {
      left := marginLeft;
    }

    /** setMarginTop: asserts the viewport is not active. */
    method SetMarginTop(stack: ViewportStack, marginTop: UInt)
      requires !IsActive(stack)
      modifies this
      ensures Rectangle() == old(Rectangle()).(top := marginTop)
    {
      top := marginTop;
    }
  }

  /**
   * A root viewport fits its frame: the margins on the left, the right and
   * the viewport's width add up to the frame's width, and likewise
   * vertically, with or without fitSquare.
   */
  lemma RootMarginsAddUp(v: Viewport, frameWidth: UInt, frameHeight: UInt)
    requires v.parent == Frame(frameWidth, frameHeight)
    requires v.Rectangle() == Square(frameWidth, frameHeight)
             || v.Rectangle() == Area(0, 0, frameWidth, frameHeight)
    ensures v.left + v.width + v.MarginRight() == frameWidth
    ensures v.top + v.height + v.MarginBottom() == frameHeight
  {
  }
}
