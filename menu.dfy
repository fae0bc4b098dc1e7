/**
 * The menu engine's helpers: the item tree and its path walk, the records
 * created when a menu level opens, the safe-area triangle test, viewport-aware
 * placement, and the two depth-indexed stacks of open menus.
 */
module MenuUtils {
  import opened Wrappers
  import opened Geometry

  /** Padding of menus to each side of the window. */
  const WINDOW_PADDING: real := 8.0
  /** Vertical pull-up of a submenu against its parent item. */
  const TOP_MENU_OFFSET: real := 4.0
  /** Horizontal gap between a submenu and its parent item. */
  const LEFT_MENU_OFFSET: real := 4.0

  /** `MenuBehavior`: MENU = 0, SELECT = 1, AUTOCOMPLETE = 2. */
  datatype Behavior = Menu | Select | Autocomplete

  /** The `checked` property of an action: absent, a boolean, or a function (which the helpers never call). */
  datatype Checked = Unset | Flag(value: bool) | Computed

  /** `MenuItem`: an action, a submenu with nested items, or `MENU_SEPARATOR`. */
  datatype MenuItem =
    | Action(text: string, checked: Checked, disabled: bool)
    | Submenu(text: string, items: seq<MenuItem>, disabled: bool)
    | Separator

  /** `typeof item === 'object' && 'checked' in item && item.checked`: a function value is truthy. */
  predicate IsChecked(item: MenuItem) {
    item.Action? && (item.checked == Flag(true) || item.checked.Computed?)
  }

  /** `typeof item === 'object' && 'label' in item`. */
  predicate HasLabel(item: MenuItem) {
    !item.Separator?
  }

  /** Index `i` of `items` holds an item with nested `items` (an out-of-range index reads `undefined`). */
  predicate OpensSubmenu(items: seq<MenuItem>, i: int) {
    0 <= i < |items| && items[i].Submenu?
  }

  // ---------------------------------------------------------------------------
  // Menu path walk
  // ---------------------------------------------------------------------------

  /** The items reached from `items` along `path`, or the "Invalid menu path" error. */
  function Walk(items: seq<MenuItem>, path: seq<int>): (r: Result<seq<MenuItem>>)
    ensures r.Err? ==> r.error == InvalidMenuPath
    decreases |path|
  {
    if path == [] then Ok(items)
    else if OpensSubmenu(items, path[0]) then Walk(items[path[0]].items, path[1..])
    else Err(InvalidMenuPath)
  }

  /** Walking the remainder of a path from wherever its first part led. */
  function Continue(r: Result<seq<MenuItem>>, path: seq<int>): Result<seq<MenuItem>> {
    match r
    case Err(e) => Err(e)
    case Ok(items) => Walk(items, path)
  }

  /** `getMenuItems`: walks the tree from the root items along the path, reassigning `items` at each step. */
  method GetMenuItems(propItems: seq<MenuItem>, menuPath: seq<int>) returns (r: Result<seq<MenuItem>>)
    ensures r == Walk(propItems, menuPath)
  {
    if |menuPath| == 0 {
      return Ok(propItems);
    }
    var items := propItems;
    for i := 0 to |menuPath|
      invariant Walk(propItems, menuPath) == Walk(items, menuPath[i..])
    {
      assert menuPath[i..][1..] == menuPath[i + 1..];
      var item := menuPath[i];
      if !OpensSubmenu(items, item) {
        return Err(InvalidMenuPath);
      }
      items := items[item].items;
    }
    return Ok(items);
  }

  /** A walk along `p + q` is the walk along `p` continued along `q`. */
  lemma {:induction false} WalkAppend(items: seq<MenuItem>, p: seq<int>, q: seq<int>)
    ensures Walk(items, p + q) == Continue(Walk(items, p), q)
    decreases |p|
  {
    if p == [] {
      assert p + q == q;
    } else {
      assert (p + q)[0] == p[0] && (p + q)[1..] == p[1..] + q;
      if OpensSubmenu(items, p[0]) {
        WalkAppend(items[p[0]].items, p[1..], q);
      }
    }
  }

  /**
   * One more path segment: it fails exactly when the walk so far failed or the
   * segment does not index a submenu, and otherwise yields that submenu's items.
   */
  lemma WalkSnoc(items: seq<MenuItem>, p: seq<int>, i: int)
    ensures Walk(items, p + [i]) ==
      match Walk(items, p)
      case Err(e) => Err(e)
      case Ok(level) => if OpensSubmenu(level, i) then Ok(level[i].items) else Err(InvalidMenuPath)
  {
    WalkAppend(items, p, [i]);
    match Walk(items, p)
    case Err(e) =>
    case Ok(level) =>
      assert [i][0] == i && [i][1..] == [];
      if OpensSubmenu(level, i) {
        assert Walk(level, [i]) == Walk(level[i].items, []);
      }
  }

  /** A walk that succeeds along a path also succeeds along every prefix of it. */
  lemma WalkPrefixOk(items: seq<MenuItem>, p: seq<int>, k: nat)
    requires k <= |p|
    requires Walk(items, p).Ok?
    ensures Walk(items, p[..k]).Ok?
  {
    WalkAppend(items, p[..k], p[k..]);
    assert p[..k] + p[k..] == p;
  }

  // ---------------------------------------------------------------------------
  // Opening a menu level
  // ---------------------------------------------------------------------------

  /** `ActiveMenu.position`: `height` and `minWidth` are `undefined` when absent. */
  datatype MenuPosition = MenuPosition(x: real, y: real, endAlign: bool, height: Option<real>, minWidth: Option<real>)
  {
    /** The same position moved by the window's scroll offsets. */
    function Scrolled(dx: real, dy: real): MenuPosition {
      this.(x := x + dx, y := y + dy)
    }
  }

  /** The render state of one open menu level. */
  datatype ActiveMenu = ActiveMenu(focus: int, position: MenuPosition, scrollPosition: int, menuPath: seq<int>)

  /** One entry of the type-ahead index: a label and the item's index in its level. */
  datatype SearchItem = SearchItem(text: string, index: int)

  /**
   * The calculation state of one open menu level. The element handles `menuRef`
   * and `itemRefs` are represented by what is read from them: `itemRects` holds
   * the bounding box of each item element that is registered.
   */
  datatype ActiveMenuMeta = ActiveMenuMeta(
    parentIndex: int,
    parentItemRect: Rect,
    menuRect: Rect,
    itemRects: map<int, Rect>,
    searchItems: seq<SearchItem>,
    searchTerm: string,
    lastSearchTime: int)

  /** `items.findIndex(IsChecked)`: the first checked index, or -1. */
  function FirstChecked(items: seq<MenuItem>): (r: int)
    ensures -1 <= r < |items|
    ensures r >= 0 ==> IsChecked(items[r])
    ensures forall j :: 0 <= j < |items| && (r == -1 || j < r) ==> !IsChecked(items[j])
  {
    if items == [] then -1
    else if IsChecked(items[0]) then 0
    else
      var k := FirstChecked(items[1..]);
      if k == -1 then -1 else k + 1
  }

  /** The `reduce` that collects `{label, index}` for the labelled items, numbering them from `offset`. */
  function LabelledFrom(items: seq<MenuItem>, offset: int): (r: seq<SearchItem>)
    ensures |r| <= |items|
    ensures forall j :: 0 <= j < |r| ==> offset <= r[j].index < offset + |items|
  {
    if items == [] then []
    else
      var rest := LabelledFrom(items[1..], offset + 1);
      (if HasLabel(items[0]) then [SearchItem(items[0].text, offset)] else []) + rest
  }

  /** Every entry of the search index is a labelled item of the level, with that item's label. */
  lemma {:induction false} LabelledFromSound(items: seq<MenuItem>, offset: int, j: int)
    requires 0 <= j < |LabelledFrom(items, offset)|
    ensures var e := LabelledFrom(items, offset)[j];
      HasLabel(items[e.index - offset]) && e.text == items[e.index - offset].text
  {
    var rest := LabelledFrom(items[1..], offset + 1);
    if HasLabel(items[0]) && j == 0 {
    } else {
      var j' := if HasLabel(items[0]) then j - 1 else j;
      assert LabelledFrom(items, offset)[j] == rest[j'];
      LabelledFromSound(items[1..], offset + 1, j');
      assert items[1..][rest[j'].index - (offset + 1)] == items[rest[j'].index - offset];
    }
  }

  /** The search index lists the items in their order in the level. */
  lemma {:induction false} LabelledFromOrdered(items: seq<MenuItem>, offset: int, j: int, k: int)
    requires 0 <= j < k < |LabelledFrom(items, offset)|
    ensures LabelledFrom(items, offset)[j].index < LabelledFrom(items, offset)[k].index
  {
    var r := LabelledFrom(items, offset);
    var rest := LabelledFrom(items[1..], offset + 1);
    if HasLabel(items[0]) {
      assert r[k] == rest[k - 1];
      if j > 0 {
        assert r[j] == rest[j - 1];
        LabelledFromOrdered(items[1..], offset + 1, j - 1, k - 1);
      }
    } else {
      assert r == rest;
      LabelledFromOrdered(items[1..], offset + 1, j, k);
    }
  }

  /** Every labelled item of the level has an entry in the search index, under its own index. */
  lemma {:induction false} LabelledFromComplete(items: seq<MenuItem>, offset: int, i: int)
    requires 0 <= i < |items| && HasLabel(items[i])
    ensures exists j :: 0 <= j < |LabelledFrom(items, offset)| && LabelledFrom(items, offset)[j].index == offset + i
  {
    var r := LabelledFrom(items, offset);
    var rest := LabelledFrom(items[1..], offset + 1);
    if i == 0 {
      assert r[0].index == offset;
    } else {
      assert items[1..][i - 1] == items[i];
      LabelledFromComplete(items[1..], offset + 1, i - 1);
      var j :| 0 <= j < |rest| && rest[j].index == offset + 1 + (i - 1);
      if HasLabel(items[0]) {
        assert r[j + 1] == rest[j];
      } else {
        assert r[j] == rest[j];
      }
    }
  }

  /**
   * `createActiveMenu`. It throws when the path is invalid. Otherwise the level
   * starts off-screen with the fixed initial values, its focus is the first
   * checked item of the ROOT items in SELECT mode and -1 otherwise, and its
   * search index lists the labelled items of the opened level.
   */
  function CreateActiveMenu(behavior: Behavior, parentIndex: int, parentItemRect: Rect,
                            menuPath: seq<int>, propItems: seq<MenuItem>): (r: Result<(ActiveMenu, ActiveMenuMeta)>)
    ensures r.Ok? <==> Walk(propItems, menuPath).Ok?
    ensures r.Err? ==> r.error == InvalidMenuPath
    ensures r.Ok? ==>
      var (m, meta) := r.value;
      && (behavior != Select ==> m.focus == -1)
      && (behavior == Select ==> m.focus == FirstChecked(propItems))
      && m.position == MenuPosition(-1000.0, -1000.0, true, None, None)
      && m.scrollPosition == -1 && m.menuPath == menuPath
      && meta.parentIndex == parentIndex && meta.parentItemRect == parentItemRect
      && meta.menuRect == EmptyRect && meta.itemRects == map[]
      && meta.searchTerm == "" && meta.lastSearchTime == 0
      && meta.searchItems == LabelledFrom(Walk(propItems, menuPath).value, 0)
  {
    var focus := if behavior == Select then FirstChecked(propItems) else -1;
    match Walk(propItems, menuPath)
    case Err(e) => Err(e)
    case Ok(level) =>
      Ok((ActiveMenu(focus, MenuPosition(-1000.0, -1000.0, true, None, None), -1, menuPath),
          ActiveMenuMeta(parentIndex, parentItemRect, EmptyRect, map[], LabelledFrom(level, 0), "", 0)))
  }

  // ---------------------------------------------------------------------------
  // Safe-area triangle
  // ---------------------------------------------------------------------------

  /** The cross product of `p - o` and `q - o`: positive when `q` lies to the left of the line from `o` to `p`. */
  function Cross(o: Vec2, p: Vec2, q: Vec2): real {
    (p.x - o.x) * (q.y - o.y) - (p.y - o.y) * (q.x - o.x)
  }

  /** `checkIfInTriangle`: same-side tests of `s` against the three edges. */
  function CheckIfInTriangle(a: Vec2, b: Vec2, c: Vec2, s: Vec2): (r: bool)
    ensures r <==>
      && ((Cross(b, c, s) > 0.0) == (Cross(a, b, s) > 0.0))
      && ((Cross(a, c, s) > 0.0) != (Cross(a, b, s) > 0.0))
  {
    var asX := s.x - a.x;
    var asY := s.y - a.y;
    var sAb := (b.x - a.x) * asY - (b.y - a.y) * asX > 0.0;
    if ((c.x - a.x) * asY - (c.y - a.y) * asX > 0.0) == sAb then false
    else if ((c.x - b.x) * (s.y - b.y) - (c.y - b.y) * (s.x - b.x) > 0.0) != sAb then false
    else true
  }

  /** `l1 * a + l2 * b + l3 * c`. */
  function Combine(a: Vec2, b: Vec2, c: Vec2, l1: real, l2: real, l3: real): Vec2 {
    Vec2(l1 * a.x + l2 * b.x + l3 * c.x, l1 * a.y + l2 * b.y + l3 * c.y)
  }

  /** The three edge cross products of a convex combination are its weights times the triangle's own. */
  lemma CrossOfCombination(a: Vec2, b: Vec2, c: Vec2, l1: real, l2: real, l3: real)
    requires l1 + l2 + l3 == 1.0
    ensures var s := Combine(a, b, c, l1, l2, l3);
      && Cross(a, b, s) == l3 * Cross(a, b, c)
      && Cross(b, c, s) == l1 * Cross(a, b, c)
      && Cross(c, a, s) == l2 * Cross(a, b, c)
  {
    var s := Combine(a, b, c, l1, l2, l3);
    var ux, uy, vx, vy := b.x - a.x, b.y - a.y, c.x - a.x, c.y - a.y;
    assert s.x - a.x == l2 * ux + l3 * vx;
    assert s.y - a.y == l2 * uy + l3 * vy;
    assert Cross(a, b, c) == ux * vy - uy * vx;
    assert Cross(a, b, s) == ux * (l2 * uy + l3 * vy) - uy * (l2 * ux + l3 * vx);
    assert s.x - b.x == (l2 - 1.0) * ux + l3 * vx;
    assert s.y - b.y == (l2 - 1.0) * uy + l3 * vy;
    assert Cross(b, c, s) == (vx - ux) * ((l2 - 1.0) * uy + l3 * vy) - (vy - uy) * ((l2 - 1.0) * ux + l3 * vx);
    assert s.x - c.x == l2 * ux + (l3 - 1.0) * vx;
    assert s.y - c.y == l2 * uy + (l3 - 1.0) * vy;
    assert Cross(c, a, s) == (-vx) * (l2 * uy + (l3 - 1.0) * vy) - (-vy) * (l2 * ux + (l3 - 1.0) * vx);
  }

  /** Every point strictly inside a non-degenerate triangle passes the test, whichever way the vertices turn. */
  lemma InsideIsAccepted(a: Vec2, b: Vec2, c: Vec2, l1: real, l2: real, l3: real)
    requires Cross(a, b, c) != 0.0
    requires l1 > 0.0 && l2 > 0.0 && l3 > 0.0 && l1 + l2 + l3 == 1.0
    ensures CheckIfInTriangle(a, b, c, Combine(a, b, c, l1, l2, l3))
  {
    var s := Combine(a, b, c, l1, l2, l3);
    var d := Cross(a, b, c);
    CrossOfCombination(a, b, c, l1, l2, l3);
    assert (c.x - a.x) * (s.y - a.y) - (c.y - a.y) * (s.x - a.x) == -Cross(c, a, s);
    assert (c.x - b.x) * (s.y - b.y) - (c.y - b.y) * (s.x - b.x) == Cross(b, c, s);
    if d > 0.0 {
      assert l3 * d > 0.0 && l1 * d > 0.0 && l2 * d > 0.0;
    } else {
      assert l3 * d < 0.0 && l1 * d < 0.0 && l2 * d < 0.0;
    }
  }

  /** The three edge cross products sum to the triangle's own. */
  lemma CrossSum(a: Vec2, b: Vec2, c: Vec2, s: Vec2)
    ensures Cross(a, b, s) + Cross(b, c, s) + Cross(c, a, s) == Cross(a, b, c)
  {
    var ux, uy, vx, vy, wx, wy := b.x - a.x, b.y - a.y, c.x - a.x, c.y - a.y, s.x - a.x, s.y - a.y;
    assert Cross(a, b, s) == ux * wy - uy * wx;
    assert Cross(b, c, s) == (vx - ux) * (wy - uy) - (vy - uy) * (wx - ux);
    assert Cross(c, a, s) == (-vx) * (wy - vy) - (-vy) * (wx - vx);
    assert Cross(a, b, c) == ux * vy - uy * vx;
  }

  /** A point is recovered from its cross products with the edges (the barycentric identity). */
  lemma CrossReconstructs(a: Vec2, b: Vec2, c: Vec2, s: Vec2)
    ensures Cross(a, b, c) * s.x == Cross(b, c, s) * a.x + Cross(c, a, s) * b.x + Cross(a, b, s) * c.x
    ensures Cross(a, b, c) * s.y == Cross(b, c, s) * a.y + Cross(c, a, s) * b.y + Cross(a, b, s) * c.y
  {
    CrossSum(a, b, c, s);
    var ux, uy, vx, vy, wx, wy := b.x - a.x, b.y - a.y, c.x - a.x, c.y - a.y, s.x - a.x, s.y - a.y;
    var d1, d2, d3 := ux * wy - uy * wx, (-vx) * (wy - vy) - (-vy) * (wx - vx), ux * vy - uy * vx;
    assert Cross(a, b, s) == d1;
    assert Cross(c, a, s) == vy * wx - vx * wy;
    assert Cross(a, b, c) == d3;
    // relative to a: d3 * w == (cross with c-a) * u + d1 * v
    assert d3 * wx == (vy * wx - vx * wy) * ux + d1 * vx;
    assert d3 * wy == (vy * wx - vx * wy) * uy + d1 * vy;
  }

  /**
   * Conversely, a point on none of the three edge lines that passes the test is
   * strictly inside: it is the convex combination of the vertices with the
   * positive weights given by its edge cross products.
   */
  lemma AcceptedIsInside(a: Vec2, b: Vec2, c: Vec2, s: Vec2)
    requires Cross(a, b, c) != 0.0
    requires Cross(a, b, s) != 0.0 && Cross(b, c, s) != 0.0 && Cross(c, a, s) != 0.0
    requires CheckIfInTriangle(a, b, c, s)
    ensures var d := Cross(a, b, c);
      var l1, l2, l3 := Cross(b, c, s) / d, Cross(c, a, s) / d, Cross(a, b, s) / d;
      && l1 > 0.0 && l2 > 0.0 && l3 > 0.0 && l1 + l2 + l3 == 1.0
      && s == Combine(a, b, c, l1, l2, l3)
  {
    var d := Cross(a, b, c);
    var d1, d2, d3 := Cross(a, b, s), Cross(b, c, s), Cross(c, a, s);
    AcceptedSameSide(a, b, c, s);
    CrossSum(a, b, c, s);
    CrossReconstructs(a, b, c, s);
    Weights(d, d2, d3, d1);
    Reweigh(d, d2, d3, d1, a.x, b.x, c.x, s.x);
    Reweigh(d, d2, d3, d1, a.y, b.y, c.y, s.y);
  }

  /** A point that passes the test lies on the same side of all three edges. */
  lemma AcceptedSameSide(a: Vec2, b: Vec2, c: Vec2, s: Vec2)
    requires CheckIfInTriangle(a, b, c, s) && Cross(c, a, s) != 0.0
    ensures (Cross(a, b, s) > 0.0) == (Cross(b, c, s) > 0.0)
    ensures (Cross(a, b, s) > 0.0) == (Cross(c, a, s) > 0.0)
  {
    assert (c.x - a.x) * (s.y - a.y) - (c.y - a.y) * (s.x - a.x) == -Cross(c, a, s);
    assert (c.x - b.x) * (s.y - b.y) - (c.y - b.y) * (s.x - b.x) == Cross(b, c, s);
  }

  /** Three nonzero parts of one sign, divided by their sum, are positive weights summing to one. */
  lemma Weights(d: real, n1: real, n2: real, n3: real)
    requires n1 != 0.0 && n2 != 0.0 && n3 != 0.0
    requires (n1 > 0.0) == (n2 > 0.0) == (n3 > 0.0)
    requires n1 + n2 + n3 == d
    ensures d != 0.0 && n1 / d > 0.0 && n2 / d > 0.0 && n3 / d > 0.0 && n1 / d + n2 / d + n3 / d == 1.0
  {
    assert n1 / d + n2 / d + n3 / d == (n1 + n2 + n3) / d;
  }

  /** Dividing the weights of a combination by `d` divides the combination by `d`. */
  lemma Reweigh(d: real, n1: real, n2: real, n3: real, p1: real, p2: real, p3: real, q: real)
    requires d != 0.0 && d * q == n1 * p1 + n2 * p2 + n3 * p3
    ensures (n1 / d) * p1 + (n2 / d) * p2 + (n3 / d) * p3 == q
  {
    assert (n1 / d) * p1 == (n1 * p1) / d;
    assert (n2 / d) * p2 == (n2 * p2) / d;
    assert (n3 / d) * p3 == (n3 * p3) / d;
    assert (n1 * p1) / d + (n2 * p2) / d + (n3 * p3) / d == (d * q) / d;
  }

  /** The centroid of a non-degenerate triangle passes the test. */
  lemma CentroidIsAccepted(a: Vec2, b: Vec2, c: Vec2)
    requires Cross(a, b, c) != 0.0
    ensures CheckIfInTriangle(a, b, c, Combine(a, b, c, 1.0 / 3.0, 1.0 / 3.0, 1.0 / 3.0))
  {
    InsideIsAccepted(a, b, c, 1.0 / 3.0, 1.0 / 3.0, 1.0 / 3.0);
  }

  /**
   * A point on an edge is not treated alike for both orientations: the midpoint
   * of the edge from a to b is rejected when the vertices turn counter-clockwise
   * and accepted when they turn clockwise.
   */
  lemma EdgeDependsOnOrientation()
    ensures !CheckIfInTriangle(Vec2(0.0, 0.0), Vec2(1.0, 0.0), Vec2(0.0, 1.0), Vec2(0.5, 0.0))
    ensures CheckIfInTriangle(Vec2(0.0, 0.0), Vec2(0.0, 1.0), Vec2(1.0, 0.0), Vec2(0.0, 0.5))
  {
  }

  // ---------------------------------------------------------------------------
  // Placement
  // ---------------------------------------------------------------------------

  /** `behavior === SELECT && relativeDistance`: `undefined` and 0 are falsy. */
  predicate AnchoredSelect(behavior: Behavior, relativeDistance: Option<real>) {
    behavior == Select && relativeDistance.Some? && relativeDistance.value != 0.0
  }

  /** The placement before the vertical overflow corrections: x, y and endAlign. */
  function InitialPlacement(depth: int, parent: Rect, menu: Rect, behavior: Behavior,
                            relativeDistance: Option<real>, innerWidth: real, innerHeight: real): (r: (real, real, bool))
    ensures AnchoredSelect(behavior, relativeDistance) ==> r.0 + menu.width <= innerWidth - WINDOW_PADDING && r.2
    ensures depth == 0 && !AnchoredSelect(behavior, relativeDistance) ==>
      r.2 && (r.1 == parent.y + parent.height || r.1 == parent.y - menu.height)
    ensures depth != 0 && !AnchoredSelect(behavior, relativeDistance) ==>
      && r.0 >= WINDOW_PADDING && r.1 == parent.y - TOP_MENU_OFFSET
      && (!r.2 <==> parent.x + parent.width + LEFT_MENU_OFFSET + menu.width > innerWidth - WINDOW_PADDING)
  {
    if AnchoredSelect(behavior, relativeDistance) then
      var x := parent.x - 16.0 - 14.0;
      var y := parent.y - relativeDistance.value - 16.0;
      (if x + menu.width > innerWidth - WINDOW_PADDING then innerWidth - menu.width - WINDOW_PADDING else x, y, true)
    else if depth == 0 then
      var x :=
        if parent.x + menu.width > innerWidth - WINDOW_PADDING then
          (if parent.width != 0.0 then parent.x + parent.width - menu.width
           else innerWidth - menu.width - WINDOW_PADDING)
        else parent.x;
      var y := parent.y + parent.height;
      (x, if y + menu.height > innerHeight - WINDOW_PADDING then parent.y - menu.height else y, true)
    else
      var right := parent.x + parent.width + LEFT_MENU_OFFSET;
      var flip := right + menu.width > innerWidth - WINDOW_PADDING;
      var x := if flip then parent.x - menu.width else right;
      (if x < WINDOW_PADDING then WINDOW_PADDING else x, parent.y - TOP_MENU_OFFSET, !flip)
  }

  /** The bottom-overflow correction and then the top-overflow clamp: the final y and height. */
  function VerticalCorrection(y0: real, menuHeight: real, innerHeight: real, behavior: Behavior): (r: (real, Option<real>))
    ensures r.0 >= WINDOW_PADDING
    ensures r.1.None? ==> r.0 + menuHeight <= innerHeight - WINDOW_PADDING
    ensures WINDOW_PADDING <= y0 && y0 + menuHeight <= innerHeight - WINDOW_PADDING ==> r == (y0, None)
  {
    var (y1, h1) :=
      if y0 + menuHeight > innerHeight - WINDOW_PADDING then
        var y := if behavior == Autocomplete then y0 else innerHeight - menuHeight - WINDOW_PADDING;
        var h := if behavior == Autocomplete then Some(innerHeight - y0 - WINDOW_PADDING * 2.0) else None;
        (y, if y < WINDOW_PADDING then Some(innerHeight - y - WINDOW_PADDING * 2.0) else h)
      else (y0, None);
    if y1 < WINDOW_PADDING then
      (WINDOW_PADDING,
       if WINDOW_PADDING + menuHeight > innerHeight - WINDOW_PADDING
       then Some(innerHeight - WINDOW_PADDING - WINDOW_PADDING * 2.0) else h1)
    else (y1, h1)
  }

  /**
   * The placement of a menu in viewport coordinates (before the scroll offsets
   * are added). It keeps the menu below the top padding; a submenu also right of
   * the left padding; `endAlign` is false exactly when a submenu flips to the
   * left of its parent; `minWidth` is the parent's width exactly in SELECT and
   * AUTOCOMPLETE; and without a height constraint the menu ends above the bottom
   * padding.
   */
  function ViewportPlacement(depth: int, parent: Rect, menu: Rect, behavior: Behavior,
                             relativeDistance: Option<real>, innerWidth: real, innerHeight: real): (q: MenuPosition)
    ensures q.y >= WINDOW_PADDING
    ensures depth != 0 && !AnchoredSelect(behavior, relativeDistance) ==> q.x >= WINDOW_PADDING
    ensures !q.endAlign <==>
      (&& depth != 0 && !AnchoredSelect(behavior, relativeDistance)
       && parent.x + parent.width + LEFT_MENU_OFFSET + menu.width > innerWidth - WINDOW_PADDING)
    ensures q.minWidth == (if behavior == Select || behavior == Autocomplete then Some(parent.width) else None)
    ensures q.height.None? ==> q.y + menu.height <= innerHeight - WINDOW_PADDING
  {
    var (x, y0, endAlign) := InitialPlacement(depth, parent, menu, behavior, relativeDistance, innerWidth, innerHeight);
    var (y, height) := VerticalCorrection(y0, menu.height, innerHeight, behavior);
    MenuPosition(x, y, endAlign,  height,
                 if behavior == Select || behavior == Autocomplete then Some(parent.width) else None)
  }

  /**
   * A root menu that fits to the right is left-aligned with its anchor; one
   * that does not, and whose anchor has a width, is right-aligned with the
   * anchor's right edge. One that fits below the anchor sits directly below it.
   */
  lemma RootMenuPlacement(parent: Rect, menu: Rect, behavior: Behavior, relativeDistance: Option<real>,
                          innerWidth: real, innerHeight: real)
    requires !AnchoredSelect(behavior, relativeDistance)
    ensures var q := ViewportPlacement(0, parent, menu, behavior, relativeDistance, innerWidth, innerHeight);
      && (parent.x + menu.width <= innerWidth - WINDOW_PADDING ==> q.x == parent.x)
      && (parent.x + menu.width > innerWidth - WINDOW_PADDING && parent.width != 0.0 ==>
            q.x + menu.width == parent.x + parent.width)
      && (WINDOW_PADDING <= parent.y + parent.height
          && parent.y + parent.height + menu.height <= innerHeight - WINDOW_PADDING ==>
            q.y == parent.y + parent.height && q.height.None?)
  {
  }

  /**
   * `calculatePosition`: the placement is built up in a local record through a
   * sequence of conditional updates, then moved by the scroll offsets. The
   * result is the viewport placement, which does not depend on the scroll
   * offsets, shifted by exactly those offsets.
   */
  method CalculatePosition(depth: int, parentItemRect: Rect, menuRect: Rect, behavior: Behavior,
                           relativeDistance: Option<real>, window: Viewport) returns (coords: MenuPosition)
    ensures coords == ViewportPlacement(depth, parentItemRect, menuRect, behavior, relativeDistance,
                                        window.innerWidth, window.innerHeight).Scrolled(window.scrollX, window.scrollY)
  {
    coords := MenuPosition(0.0, 0.0, true, None, None);
    if behavior == Select || behavior == Autocomplete {
      coords := coords.(minWidth := Some(parentItemRect.width));
    }
    coords := PlaceByBehavior(coords, depth, parentItemRect, menuRect, behavior, relativeDistance, window);
    coords := CorrectOverflow(coords, menuRect, behavior, window);

    coords := coords.(y := coords.y + window.scrollY);
    coords := coords.(x := coords.x + window.scrollX);
  }

  /** The first part of `calculatePosition`: the select, root-menu and submenu cases. */
  method PlaceByBehavior(coords0: MenuPosition, depth: int, parentItemRect: Rect, menuRect: Rect,
                         behavior: Behavior, relativeDistance: Option<real>, window: Viewport)
    returns (coords: MenuPosition)
    requires coords0.endAlign && coords0.height.None?
    ensures (coords.x, coords.y, coords.endAlign) ==
      InitialPlacement(depth, parentItemRect, menuRect, behavior, relativeDistance, window.innerWidth, window.innerHeight)
    ensures coords.height == coords0.height && coords.minWidth == coords0.minWidth
  {
    coords := coords0;
    if AnchoredSelect(behavior, relativeDistance) {
      coords := coords.(x := parentItemRect.x - 16.0 - 14.0);
      coords := coords.(y := parentItemRect.y - relativeDistance.value - 16.0);
      if coords.x + menuRect.width > window.innerWidth - WINDOW_PADDING {
        coords := coords.(x := window.innerWidth - menuRect.width - WINDOW_PADDING);
      }
    } else if depth == 0 {
      coords := coords.(x := parentItemRect.x);
      coords := coords.(y := parentItemRect.y + parentItemRect.height);
      if coords.x + menuRect.width > window.innerWidth - WINDOW_PADDING {
        if parentItemRect.width != 0.0 {
          coords := coords.(x := parentItemRect.x + parentItemRect.width - menuRect.width);
        } else {
          coords := coords.(x := window.innerWidth - menuRect.width - WINDOW_PADDING);
        }
      }
      if coords.y + menuRect.height > window.innerHeight - WINDOW_PADDING {
        coords := coords.(y := parentItemRect.y - menuRect.height);
      }
    } else {
      coords := coords.(x := parentItemRect.x + parentItemRect.width + LEFT_MENU_OFFSET);
      coords := coords.(y := parentItemRect.y - TOP_MENU_OFFSET);
      if coords.x + menuRect.width > window.innerWidth - WINDOW_PADDING {
        coords := coords.(endAlign := false);
        coords := coords.(x := parentItemRect.x - menuRect.width);
      }
      if coords.x < WINDOW_PADDING {
        coords := coords.(x := WINDOW_PADDING);
      }
    }
  }

  /** The second part of `calculatePosition`: the bottom-overflow and then the top-overflow correction. */
  method CorrectOverflow(coords0: MenuPosition, menuRect: Rect, behavior: Behavior, window: Viewport)
    returns (coords: MenuPosition)
    requires coords0.height.None?
    ensures (coords.y, coords.height) == VerticalCorrection(coords0.y, menuRect.height, window.innerHeight, behavior)
    ensures coords.x == coords0.x && coords.endAlign == coords0.endAlign && coords.minWidth == coords0.minWidth
  {
    coords := coords0;
    if coords.y + menuRect.height > window.innerHeight - WINDOW_PADDING {
      if behavior == Autocomplete {
        coords := coords.(height := Some(window.innerHeight - coords.y - WINDOW_PADDING * 2.0));
      } else {
        coords := coords.(y := window.innerHeight - menuRect.height - WINDOW_PADDING);
      }
      if coords.y < WINDOW_PADDING {
        coords := coords.(height := Some(window.innerHeight - coords.y - WINDOW_PADDING * 2.0));
      }
    }

    if coords.y < WINDOW_PADDING {
      coords := coords.(y := WINDOW_PADDING);
      if coords.y + menuRect.height > window.innerHeight - WINDOW_PADDING {
        coords := coords.(height := Some(window.innerHeight - coords.y - WINDOW_PADDING * 2.0));
      }
    }
  }

  // ---------------------------------------------------------------------------
  // The two stacks of open menus
  // ---------------------------------------------------------------------------

  /** The end index `Array.prototype.slice(0, end)` stops at: a negative end counts from the back. */
  function SliceEnd(length: nat, end: int): (r: nat)
    ensures r <= length
    ensures end >= 0 ==> r == if end < length then end else length
    ensures end < 0 ==> r == if length + end > 0 then length + end else 0
  {
    if end < 0 then (if length + end > 0 then length + end else 0)
    else if end < length then end else length
  }

  /**
   * `removeSubMenu`: both stacks cut to `slice(0, menu + 1)`, so for
   * `menu >= -1` the first `min(menu + 1, length)` entries of each are kept. The
   * inputs are values and stay as they were.
   */
  function RemoveSubMenu(activeMenus: seq<ActiveMenu>, activeMenusMeta: seq<ActiveMenuMeta>, menu: int)
    : (r: (seq<ActiveMenu>, seq<ActiveMenuMeta>))
    ensures |r.0| <= |activeMenus| && r.0 == activeMenus[..|r.0|]
    ensures |r.1| <= |activeMenusMeta| && r.1 == activeMenusMeta[..|r.1|]
    ensures menu >= -1 ==>
      && |r.0| == (if menu + 1 < |activeMenus| then menu + 1 else |activeMenus|)
      && |r.1| == (if menu + 1 < |activeMenusMeta| then menu + 1 else |activeMenusMeta|)
  {
    (activeMenus[..SliceEnd(|activeMenus|, menu + 1)], activeMenusMeta[..SliceEnd(|activeMenusMeta|, menu + 1)])
  }

  /** Every open menu's path leads to a menu level, so `getMenuItems` does not throw on it. */
  ghost predicate PathsValid(propItems: seq<MenuItem>, activeMenus: seq<ActiveMenu>) {
    forall k :: 0 <= k < |activeMenus| ==> Walk(propItems, activeMenus[k].menuPath).Ok?
  }

  /**
   * `addSubMenu`. Reading an unopened or missing menu level throws a TypeError
   * and an invalid path throws "Invalid menu path". When the target item has no
   * nested items the result is null and nothing changes. Otherwise both stacks
   * keep levels 0..menu and gain the new level on top, whose path is the current
   * path plus the item index; that path is valid, so menu paths made this way
   * never make `getMenuItems` throw.
   */
  method AddSubMenu(behavior: Behavior, propItems: seq<MenuItem>, activeMenus: seq<ActiveMenu>,
                    activeMenusMeta: seq<ActiveMenuMeta>, menu: int, index: int)
    returns (r: Result<Option<(seq<ActiveMenu>, seq<ActiveMenuMeta>)>>)
    ensures !(0 <= menu < |activeMenus|) ==> r == Err(TypeError)
    ensures 0 <= menu < |activeMenus| && Walk(propItems, activeMenus[menu].menuPath).Err? ==>
      r == Err(InvalidMenuPath)
    ensures 0 <= menu < |activeMenus| && Walk(propItems, activeMenus[menu].menuPath).Ok? ==>
      var level := Walk(propItems, activeMenus[menu].menuPath).value;
      && (!OpensSubmenu(level, index) ==> r == Ok(None))
      && (OpensSubmenu(level, index) && menu >= |activeMenusMeta| ==> r == Err(TypeError))
      && (OpensSubmenu(level, index) && menu < |activeMenusMeta| ==>
            && r.Ok? && r.value.Some?
            && var (menus, metas) := r.value.value;
            && |menus| == menu + 2 && |metas| == menu + 2
            && menus[..menu + 1] == activeMenus[..menu + 1]
            && metas[..menu + 1] == activeMenusMeta[..menu + 1]
            && menus[menu + 1].menuPath == activeMenus[menu].menuPath + [index]
            && Walk(propItems, menus[menu + 1].menuPath) == Ok(level[index].items)
            && metas[menu + 1].parentIndex == index
            && metas[menu + 1].parentItemRect ==
                 (if index in activeMenusMeta[menu].itemRects then activeMenusMeta[menu].itemRects[index] else EmptyRect)
            && CreateActiveMenu(behavior, index, metas[menu + 1].parentItemRect, menus[menu + 1].menuPath, propItems)
                 == Ok((menus[menu + 1], metas[menu + 1]))
            && (PathsValid(propItems, activeMenus) ==> PathsValid(propItems, menus)))
  {
    if !(0 <= menu < |activeMenus|) {
      return Err(TypeError);
    }
    var currentMenu := activeMenus[menu];
    var items := GetMenuItems(propItems, currentMenu.menuPath);
    if items.Err? {
      return Err(items.error);
    }
    if !OpensSubmenu(items.value, index) {
      return Ok(None);
    }
    if !(menu < |activeMenusMeta|) {
      return Err(TypeError);
    }
    var itemRects := activeMenusMeta[menu].itemRects;
    var parentItemRect := if index in itemRects then itemRects[index] else EmptyRect;

    var menuPath := currentMenu.menuPath + [index];
    WalkSnoc(propItems, currentMenu.menuPath, index);
    var created := CreateActiveMenu(behavior, index, parentItemRect, menuPath, propItems);
    var (activeMenu, activeMenuMeta) := created.value;

    var (newActiveMenus, newActiveMenusMeta) := RemoveSubMenu(activeMenus, activeMenusMeta, menu);
    newActiveMenus := newActiveMenus + [activeMenu];
    newActiveMenusMeta := newActiveMenusMeta + [activeMenuMeta];
    return Ok(Some((newActiveMenus, newActiveMenusMeta)));
  }
}
