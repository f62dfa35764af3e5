/**
 * The SubMenu component: where a nested submenu flies out (`Layout`) and the
 * render tree a SubMenu produces for its entries (`GenerateMenu`, `Child`,
 * `Render`). The window width and the theme's menu width are parameters.
 */
module SubMenu {
  import opened Wrappers
  import opened MenuItems

  /** Which side of its parent panel a submenu opens on. */
  datatype Side = Left | Right

  /** A placement decision: the side and the new horizontal right edge. */
  datatype Placement = Placement(side: Side, right: int)

  /** One step of the path from the menu root down to an entry. */
  datatype PathStep = Index(i: nat) | SubmenuTag

  type Path = seq<PathStep>

  /** What a SubMenu reads from outside its props: `window.innerWidth`, `theme.menuWidth`, `defaultMenuItem`. */
  datatype Env = Env(windowWidth: int, menuWidth: int, defaults: Fields)

  /** The props of a SubMenu element (the theme and the checked-state callback are left out). */
  datatype SubMenuProps = SubMenuProps(menuItem: MenuItem, level: int, right: int, renderSide: Side, path: Path)

  /** What a SubMenu renders: its entry merged over the defaults, the wrapper's level and side, and its children. */
  datatype SubMenuView = SubMenuView(menuItem: Fields, level: int, renderSide: Side, children: seq<Node>)

  /** A child: a nested SubMenu element together with its rendering, or a leaf MenuItem element. */
  datatype Node =
    | Sub(key: string, props: SubMenuProps, view: SubMenuView)
    | Leaf(key: string, menuItem: Fields, indx: nat, path: Path)

  /**
   * The placement of a nested submenu of a panel whose right edge is
   * `parentRight`. It opens to the right unless that overflows the window and
   * more than one menu width is left to the left of the parent panel. When
   * neither fits, the two free spaces are compared and nothing is done with the
   * comparison.
   */
  function Layout(parentRight: int, menuWidth: int, windowWidth: int): (p: Placement)
    ensures p.side == Right ==> p.right == parentRight + menuWidth
    ensures p.side == Left ==> p.right == parentRight - menuWidth
    ensures p.side == Left ==> parentRight + menuWidth > windowWidth && p.right > menuWidth
  {
    var right := parentRight + menuWidth;
    if right > windowWidth then
      if menuWidth < parentRight - menuWidth then
        Placement(Left, parentRight - menuWidth)
      else
        var rightDiff := windowWidth - right;
        var leftDiff := parentRight - menuWidth;
        // "zero out to the right" is not implemented: both outcomes keep the default
        if rightDiff < leftDiff then Placement(Right, right) else Placement(Right, right)
    else
      Placement(Right, right)
  }

  /**
   * `generateMenu(menu)`: `menu.map((menuItem, i) => ...)`, one child per entry,
   * in order.
   */
  function GenerateMenu(menu: seq<MenuItem>, level: int, right: int, path: Path, env: Env): (r: seq<Node>)
    decreases menu
    ensures |r| == |menu|
    ensures forall i :: 0 <= i < |menu| ==> r[i].key == Key(i, menu[i])
    ensures forall i :: 0 <= i < |menu| ==> (r[i].Sub? <==> menu[i].submenu.Entries?)
  {
    seq(|menu|, i requires 0 <= i < |menu| => Child(menu[i], i, level, right, path, env))
  }

  /** The body of the map for entry `item` at index `i`. */
  function Child(item: MenuItem, i: nat, level: int, right: int, path: Path, env: Env): (n: Node)
    decreases item
    ensures n.key == Key(i, item)
    ensures n.Sub? <==> item.submenu.Entries?
  {
    if item.submenu.Entries? then
      var p := Layout(right, env.menuWidth, env.windowWidth);
      var props := SubMenuProps(
        MenuItem(SubmenuFields(env.defaults, item.fields), item.submenu),
        level + 1, p.right, p.side, path + [Index(i), SubmenuTag]);
      Sub(Key(i, item), props, Render(props, env))
    else
      Leaf(Key(i, item), Merge(env.defaults, item.fields), i, path)
  }

  /**
   * `render()`: the entry merged over the defaults, the wrapper's level and
   * side, and `generateMenu(menuItem.submenu)`, where an undefined submenu
   * takes the parameter default `[]`. Any other falsy submenu would make
   * `generateMenu` throw, so it is excluded.
   */
  function Render(props: SubMenuProps, env: Env): (v: SubMenuView)
    requires !props.menuItem.submenu.Falsy?
    decreases props.menuItem.submenu, 1
    ensures v.menuItem == Merge(env.defaults, props.menuItem.fields)
    ensures v.level == props.level && v.renderSide == props.renderSide
    ensures props.menuItem.submenu.Undefined? ==> v.children == []
    ensures props.menuItem.submenu.Entries? ==> |v.children| == |props.menuItem.submenu.items|
  {
    var children :=
      match props.menuItem.submenu
      case Undefined | Falsy => []
      case Entries(menu) => GenerateMenu(menu, props.level, props.right, props.path, env);
    SubMenuView(Merge(env.defaults, props.menuItem.fields), props.level, props.renderSide, children)
  }

  /** The props of a SubMenu given only `right` and `path`: `defaultProps` fills in the rest. */
  function DefaultProps(right: int, path: Path): (props: SubMenuProps)
    ensures props.menuItem == MenuItem(map[], Undefined)
    ensures props.level == 1 && props.renderSide == Right
    ensures props.right == right && props.path == path
  {
    SubMenuProps(MenuItem(map[], Undefined), 1, right, Right, path)
  }
}
