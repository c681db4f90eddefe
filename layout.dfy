/** Screen layout of the Simulate game: the four buttons, their colours and
    rectangles on the 640x480 window, and the hit test that maps a pointer
    position to a button (pyGame/Simulate.py:6-37, 166-182, 331-340). */
module Layout {

  datatype Option<T> = None | Some(value: T)

  /** The four buttons. The source identifies a button by its RGB tuple;
      `ButtonColor` below recovers that tuple. */
  datatype Button = Yellow | Blue | Red | Green

  datatype Rgb = Rgb(r: int, g: int, b: int)

  predicate ValidRgb(c: Rgb) {
    0 <= c.r <= 255 && 0 <= c.g <= 255 && 0 <= c.b <= 255
  }

  /** A pygame rectangle: top-left corner plus width and height. */
  datatype Rect = Rect(left: int, top: int, width: int, height: int) {
    /** pygame's `Rect.collidepoint`: the right and bottom edges are excluded. */
    predicate CollidePoint(x: int, y: int) {
      left <= x < left + width && top <= y < top + height
    }
  }

  const WindowWidth := 640
  const WindowHeight := 480
  const ButtonSize := 200
  const ButtonGapSize := 20

  // The source computes the margins as int(<float quotient>), which truncates
  // toward zero; both numerators are positive, so Dafny's division agrees.
  const XMargin: int := (WindowWidth - 2 * ButtonSize - ButtonGapSize) / 2
  const YMargin: int := (WindowHeight - 2 * ButtonSize - ButtonGapSize) / 2

  const White := Rgb(255, 255, 255)
  const Black := Rgb(0, 0, 0)

  const WindowRect := Rect(0, 0, WindowWidth, WindowHeight)

  /** A component of a button colour at full intensity. */
  function Brighten(v: int): int {
    if v == 0 then 0 else 255
  }

  /** The RGB tuple by which the source names each button. */
  function ButtonColor(b: Button): (c: Rgb)
    ensures ValidRgb(c)
  {
    match b
    case Yellow => Rgb(155, 155, 0)
    case Blue => Rgb(0, 0, 155)
    case Red => Rgb(155, 0, 0)
    case Green => Rgb(0, 155, 0)
  }

  /** The bright colour a button flashes with: the button's own colour with
      each lit component (155) raised to full intensity (255). */
  function FlashColor(b: Button): (c: Rgb)
    ensures ValidRgb(c)
    ensures c.r == Brighten(ButtonColor(b).r)
    ensures c.g == Brighten(ButtonColor(b).g)
    ensures c.b == Brighten(ButtonColor(b).b)
  {
    match b
    case Yellow => Rgb(255, 255, 0)
    case Blue => Rgb(0, 0, 255)
    case Red => Rgb(255, 0, 0)
    case Green => Rgb(0, 255, 0)
  }

  /** The rectangle each button occupies: a 2x2 grid of 200x200 squares
      separated by a 20-pixel gap. */
  function ButtonRect(b: Button): (r: Rect)
    ensures r.width == ButtonSize && r.height == ButtonSize
  {
    match b
    case Yellow => Rect(XMargin, YMargin, ButtonSize, ButtonSize)
    case Blue => Rect(XMargin + ButtonSize + ButtonGapSize, YMargin, ButtonSize, ButtonSize)
    case Red => Rect(XMargin, YMargin + ButtonSize + ButtonGapSize, ButtonSize, ButtonSize)
    case Green => Rect(XMargin + ButtonSize + ButtonGapSize, YMargin + ButtonSize + ButtonGapSize,
                       ButtonSize, ButtonSize)
  }

  /** Which button, if any, the point (x, y) lies on. The rectangles are
      tested in the order yellow, blue, red, green. */
  function GetButtonClicked(x: int, y: int): (r: Option<Button>)
    ensures r == Some(Yellow) <==> 110 <= x < 310 && 30 <= y < 230
    ensures r == Some(Blue) <==> 330 <= x < 530 && 30 <= y < 230
    ensures r == Some(Red) <==> 110 <= x < 310 && 250 <= y < 450
    ensures r == Some(Green) <==> 330 <= x < 530 && 250 <= y < 450
    ensures r.Some? ==> ButtonRect(r.value).CollidePoint(x, y)
    ensures r == None <==> forall b: Button :: !ButtonRect(b).CollidePoint(x, y)
  {
    if ButtonRect(Yellow).CollidePoint(x, y) then Some(Yellow)
    else if ButtonRect(Blue).CollidePoint(x, y) then Some(Blue)
    else if ButtonRect(Red).CollidePoint(x, y) then Some(Red)
    else if ButtonRect(Green).CollidePoint(x, y) then Some(Green)
    else None
  }

  /** The source relies on the tuples being distinct to tell buttons apart. */
  lemma ButtonColorInjective(b1: Button, b2: Button)
    ensures ButtonColor(b1) == ButtonColor(b2) ==> b1 == b2
  {
  }

  /** No point lies on two buttons, so the order of the hit test is immaterial. */
  lemma ButtonRectsDisjoint(b1: Button, b2: Button, x: int, y: int)
    requires b1 != b2
    ensures !(ButtonRect(b1).CollidePoint(x, y) && ButtonRect(b2).CollidePoint(x, y))
  {
  }

  /** Every button lies wholly inside the window. */
  lemma ButtonRectInWindow(b: Button)
    ensures var r := ButtonRect(b);
      0 <= r.left && r.left + r.width <= WindowWidth &&
      0 <= r.top && r.top + r.height <= WindowHeight
  {
  }

  /** Whichever button's rectangle holds the point is the one reported. */
  lemma HitTestFindsButton(b: Button, x: int, y: int)
    requires ButtonRect(b).CollidePoint(x, y)
    ensures GetButtonClicked(x, y) == Some(b)
  {
  }
}
