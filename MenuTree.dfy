/**
 * Properties of the SubMenu model: the placement cases, the paths handed to
 * the children, and a description of the whole render tree position by
 * position, checked against the input tree.
 */
module MenuTree {
  import opened Wrappers
  import opened MenuItems
  import opened SubMenu

  // ---------------------------------------------------------------- placement

  /** Without overflow the submenu opens to the right, one menu width further out. */
  lemma LayoutNoOverflow(parentRight: int, menuWidth: int, windowWidth: int)
    requires parentRight + menuWidth <= windowWidth
    ensures Layout(parentRight, menuWidth, windowWidth) == Placement(Right, parentRight + menuWidth)
  {
  }

  /** On overflow with more than one menu width of room left of the parent panel, it flips left. */
  lemma LayoutFlipsLeft(parentRight: int, menuWidth: int, windowWidth: int)
    requires parentRight + menuWidth > windowWidth
    requires menuWidth < parentRight - menuWidth
    ensures Layout(parentRight, menuWidth, windowWidth) == Placement(Left, parentRight - menuWidth)
    ensures Layout(parentRight, menuWidth, windowWidth).right > menuWidth
  {
  }

  /** On overflow without that room it stays right: the free-space comparison has no effect. */
  lemma LayoutNoRoomStaysRight(parentRight: int, menuWidth: int, windowWidth: int)
    requires parentRight + menuWidth > windowWidth
    requires !(menuWidth < parentRight - menuWidth)
    ensures Layout(parentRight, menuWidth, windowWidth) == Placement(Right, parentRight + menuWidth)
    ensures Layout(parentRight, menuWidth, windowWidth).right > windowWidth
  {
  }

  /** The side is Left exactly when the right-hand placement overflows and the left one has room to spare. */
  lemma LayoutLeftIff(parentRight: int, menuWidth: int, windowWidth: int)
    ensures Layout(parentRight, menuWidth, windowWidth).side == Left
        <==> parentRight + menuWidth > windowWidth && menuWidth < parentRight - menuWidth
  {
  }

  /** A panel of width `menuWidth` whose right edge is `right` lies inside the window `[0, windowWidth]`. */
  predicate InView(right: int, menuWidth: int, windowWidth: int)
  {
    0 <= right - menuWidth && right <= windowWidth
  }

  /**
   * When the parent panel is in view and one of the two sides has room with a
   * pixel to spare on the left, the submenu is placed in view.
   */
  lemma LayoutKeepsInView(parentRight: int, menuWidth: int, windowWidth: int)
    requires 0 <= menuWidth
    requires InView(parentRight, menuWidth, windowWidth)
    requires parentRight + menuWidth <= windowWidth || menuWidth < parentRight - menuWidth
    ensures InView(Layout(parentRight, menuWidth, windowWidth).right, menuWidth, windowWidth)
  {
  }

  /**
   * The heuristic is not exact at the boundary: with width 200 and parent edge
   * 400 in a 500-pixel window, the left placement would end exactly at 0, but
   * the strict comparison keeps the submenu on the right, past the window edge.
   */
  lemma LayoutBoundaryOverflows()
    ensures InView(400 - 200, 200, 500)
    ensures Layout(400, 200, 500) == Placement(Right, 600)
    ensures !InView(Layout(400, 200, 500).right, 200, 500)
  {
  }

  /** Every submenu sibling of one panel gets the same side and right edge, whatever its index or entry. */
  lemma SiblingsShareSide(menu: seq<MenuItem>, level: int, right: int, path: Path, env: Env, i: nat, j: nat)
    requires i < |menu| && j < |menu|
    requires menu[i].submenu.Entries? && menu[j].submenu.Entries?
    ensures GenerateMenu(menu, level, right, path, env)[i].Sub?
    ensures GenerateMenu(menu, level, right, path, env)[j].Sub?
    ensures var r := GenerateMenu(menu, level, right, path, env);
      r[i].props.right == r[j].props.right && r[i].props.renderSide == r[j].props.renderSide
      && Placement(r[i].props.renderSide, r[i].props.right) == Layout(right, env.menuWidth, env.windowWidth)
  {
  }

  // ---------------------------------------------------------------- paths

  /** The path steps `[i1, 'submenu', i2, 'submenu', ...]` that lead to the entries below positions `pos`. */
  function EncodePath(pos: seq<nat>): (p: Path)
    ensures |p| == 2 * |pos|
  {
    if pos == [] then [] else [Index(pos[0]), SubmenuTag] + EncodePath(pos[1..])
  }

  /** Reads the positions back from a path, `None` when it is not made of index/'submenu' pairs. */
  function DecodePath(p: Path): Option<seq<nat>>
    decreases |p|
  {
    if p == [] then Some([])
    else if |p| >= 2 && p[0].Index? && p[1] == SubmenuTag then
      match DecodePath(p[2..])
      case None => None
      case Some(rest) => Some([p[0].i] + rest)
    else None
  }

  /** Paths encode positions without loss. */
  lemma {:induction false} DecodeEncode(pos: seq<nat>)
    ensures DecodePath(EncodePath(pos)) == Some(pos)
  {
    if pos != [] {
      var p := EncodePath(pos);
      assert p[0] == Index(pos[0]) && p[1] == SubmenuTag;
      assert p[2..] == EncodePath(pos[1..]);
      DecodeEncode(pos[1..]);
      assert [pos[0]] + pos[1..] == pos;
    }
  }

  /** ... and every path that decodes is the encoding of what it decodes to. */
  lemma {:induction false} EncodeDecode(p: Path)
    requires DecodePath(p).Some?
    ensures EncodePath(DecodePath(p).value) == p
    decreases |p|
  {
    if p != [] {
      EncodeDecode(p[2..]);
      var pos := DecodePath(p).value;
      assert pos[1..] == DecodePath(p[2..]).value;
    }
  }

  // ---------------------------------------------------------------- trees

  /** The entry at positions `pos` of the input tree: an index into the menu, then into its submenu, and so on. */
  function ItemAt(menu: seq<MenuItem>, pos: seq<nat>): Option<MenuItem>
    decreases |pos|
  {
    if pos == [] || pos[0] >= |menu| then None
    else if |pos| == 1 then Some(menu[pos[0]])
    else match menu[pos[0]].submenu
      case Undefined | Falsy => None
      case Entries(sub) => ItemAt(sub, pos[1..])
  }

  /** The node at positions `pos` of a render tree, descending into the children a nested SubMenu renders. */
  function NodeAt(nodes: seq<Node>, pos: seq<nat>): Option<Node>
    decreases |pos|
  {
    if pos == [] || pos[0] >= |nodes| then None
    else if |pos| == 1 then Some(nodes[pos[0]])
    else match nodes[pos[0]]
      case Leaf(_, _, _, _) => None
      case Sub(_, _, view) => NodeAt(view.children, pos[1..])
  }

  /**
   * The placement of a submenu `depth` levels below a panel with right edge
   * `right`: the placement rule applied once per level, each time to the edge
   * the level above produced.
   */
  function PlacementAt(right: int, depth: nat, env: Env): Placement
    requires depth >= 1
    decreases depth
  {
    var p := Layout(right, env.menuWidth, env.windowWidth);
    if depth == 1 then p else PlacementAt(p.right, depth - 1, env)
  }

  /**
   * What `generateMenu` promises about the entry `item` found at `pos` and the
   * node `node` found there, for a call with the given level, edge and path.
   */
  predicate Describes(node: Node, item: MenuItem, pos: seq<nat>, level: int, right: int, path: Path, env: Env)
    requires |pos| >= 1
  {
    var i := pos[|pos| - 1];
    node.key == Key(i, item)
    && (item.submenu.Entries? ==>
          node.Sub?
          && node.props.menuItem == MenuItem(SubmenuFields(env.defaults, item.fields), item.submenu)
          && node.props.level == level + |pos|
          && Placement(node.props.renderSide, node.props.right) == PlacementAt(right, |pos|, env)
          && node.props.path == path + EncodePath(pos)
          && node.view == Render(node.props, env))
    && (!item.submenu.Entries? ==>
          node.Leaf?
          && node.menuItem == Merge(env.defaults, item.fields)
          && node.indx == i
          && node.path == path + EncodePath(pos[..|pos| - 1]))
  }

  /**
   * The render tree mirrors the input tree: there is a node at `pos` exactly
   * when there is an entry, a submenu entry gives a nested SubMenu that is
   * `|pos|` levels deeper, placed by `PlacementAt` and addressed by the
   * encoded positions, and any other entry gives a leaf that carries its
   * index and the path of its panel.
   */
  lemma {:induction false} GenerateMenuAt(menu: seq<MenuItem>, level: int, right: int, path: Path, env: Env, pos: seq<nat>)
    ensures NodeAt(GenerateMenu(menu, level, right, path, env), pos).Some? <==> ItemAt(menu, pos).Some?
    ensures ItemAt(menu, pos).Some? ==>
      Describes(NodeAt(GenerateMenu(menu, level, right, path, env), pos).value,
                ItemAt(menu, pos).value, pos, level, right, path, env)
    decreases |pos|
  {
    var out := GenerateMenu(menu, level, right, path, env);
    if pos == [] || pos[0] >= |menu| {
      return;
    }
    var i := pos[0];
    var item := menu[i];
    assert out[i] == Child(item, i, level, right, path, env);
    if |pos| == 1 {
      ChildDescribes(item, i, level, right, path, env);
      return;
    }
    match item.submenu {
      case Undefined | Falsy =>
      case Entries(sub) =>
        var p := Layout(right, env.menuWidth, env.windowWidth);
        var path' := path + [Index(i), SubmenuTag];
        var rest := pos[1..];
        assert out[i].view.children == GenerateMenu(sub, level + 1, p.right, path', env);
        GenerateMenuAt(sub, level + 1, p.right, path', env, rest);
        assert NodeAt(out, pos) == NodeAt(out[i].view.children, rest);
        assert ItemAt(menu, pos) == ItemAt(sub, rest);
        if ItemAt(sub, rest).Some? {
          assert pos == [i] + rest;
          DescribesShift(NodeAt(out, pos).value, ItemAt(menu, pos).value, i, rest, level, right, path, env);
        }
    }
  }

  /** The one-position case: the child built for entry `item` at index `i`. */
  lemma ChildDescribes(item: MenuItem, i: nat, level: int, right: int, path: Path, env: Env)
    ensures Describes(Child(item, i, level, right, path, env), item, [i], level, right, path, env)
  {
  }

  /** A description one level down, relative to a nested panel, is a description from its parent. */
  lemma DescribesShift(node: Node, item: MenuItem, i: nat, rest: seq<nat>, level: int, right: int, path: Path, env: Env)
    requires |rest| >= 1
    requires Describes(node, item, rest, level + 1, Layout(right, env.menuWidth, env.windowWidth).right,
                       path + [Index(i), SubmenuTag], env)
    ensures Describes(node, item, [i] + rest, level, right, path, env)
  {
    var pos := [i] + rest;
    var path' := path + [Index(i), SubmenuTag];
    assert pos[0] == i && pos[1..] == rest;
    assert pos[|pos| - 1] == rest[|rest| - 1];
    assert EncodePath(pos) == [Index(i), SubmenuTag] + EncodePath(rest);
    assert path + EncodePath(pos) == path' + EncodePath(rest);
    var up := pos[..|pos| - 1];
    assert up[0] == i && up[1..] == rest[..|rest| - 1];
    assert EncodePath(up) == [Index(i), SubmenuTag] + EncodePath(rest[..|rest| - 1]);
    assert path + EncodePath(up) == path' + EncodePath(rest[..|rest| - 1]);
  }

  /**
   * A leaf's path and index identify its entry: the path starts with the
   * panel's own path, the rest decodes to the positions of the panel, and
   * appending the index gives back the leaf's position in the input tree.
   */
  lemma LeafLocatesItem(menu: seq<MenuItem>, level: int, right: int, path: Path, env: Env, pos: seq<nat>)
    requires NodeAt(GenerateMenu(menu, level, right, path, env), pos).Some?
    requires NodeAt(GenerateMenu(menu, level, right, path, env), pos).value.Leaf?
    ensures var leaf := NodeAt(GenerateMenu(menu, level, right, path, env), pos).value;
      |path| <= |leaf.path| && leaf.path[..|path|] == path
      && DecodePath(leaf.path[|path|..]).Some?
      && DecodePath(leaf.path[|path|..]).value + [leaf.indx] == pos
      && ItemAt(menu, pos).Some? && leaf.menuItem == Merge(env.defaults, ItemAt(menu, pos).value.fields)
  {
    GenerateMenuAt(menu, level, right, path, env, pos);
    LeafDescribed(NodeAt(GenerateMenu(menu, level, right, path, env), pos).value,
                  ItemAt(menu, pos).value, pos, level, right, path, env);
  }

  /** What a leaf description says about the leaf's path and index. */
  lemma LeafDescribed(leaf: Node, item: MenuItem, pos: seq<nat>, level: int, right: int, path: Path, env: Env)
    requires |pos| >= 1 && leaf.Leaf?
    requires Describes(leaf, item, pos, level, right, path, env)
    ensures |path| <= |leaf.path| && leaf.path[..|path|] == path
    ensures DecodePath(leaf.path[|path|..]) == Some(pos[..|pos| - 1])
    ensures pos[..|pos| - 1] + [leaf.indx] == pos
    ensures leaf.menuItem == Merge(env.defaults, item.fields)
  {
    var up := pos[..|pos| - 1];
    PathSplits(path, up);
    assert up + [pos[|pos| - 1]] == pos;
  }

  /** A panel path extended by encoded positions starts with the panel path, and the rest decodes. */
  lemma PathSplits(path: Path, up: seq<nat>)
    ensures |path| <= |path + EncodePath(up)|
    ensures (path + EncodePath(up))[..|path|] == path
    ensures DecodePath((path + EncodePath(up))[|path|..]) == Some(up)
  {
    assert (path + EncodePath(up))[|path|..] == EncodePath(up);
    DecodeEncode(up);
  }

  /**
   * Placement depends on depth alone: two nested SubMenus the same number of
   * levels down, anywhere in the tree, open on the same side at the same edge.
   */
  lemma SameDepthSamePlacement(menu: seq<MenuItem>, level: int, right: int, path: Path, env: Env,
                               pos1: seq<nat>, pos2: seq<nat>)
    requires |pos1| == |pos2|
    requires ItemAt(menu, pos1).Some? && ItemAt(menu, pos1).value.submenu.Entries?
    requires ItemAt(menu, pos2).Some? && ItemAt(menu, pos2).value.submenu.Entries?
    ensures NodeAt(GenerateMenu(menu, level, right, path, env), pos1).Some?
    ensures NodeAt(GenerateMenu(menu, level, right, path, env), pos2).Some?
    ensures var a := NodeAt(GenerateMenu(menu, level, right, path, env), pos1).value;
      var b := NodeAt(GenerateMenu(menu, level, right, path, env), pos2).value;
      a.Sub? && b.Sub? && a.props.right == b.props.right && a.props.renderSide == b.props.renderSide
      && a.props.level == b.props.level
  {
    GenerateMenuAt(menu, level, right, path, env, pos1);
    GenerateMenuAt(menu, level, right, path, env, pos2);
  }

  /** A nested SubMenu shows exactly the entry it was handed: `render` merging the defaults again changes nothing. */
  lemma NestedSubMenuShowsItsProps(item: MenuItem, i: nat, level: int, right: int, path: Path, env: Env)
    requires item.submenu.Entries?
    ensures Child(item, i, level, right, path, env).Sub?
    ensures var n := Child(item, i, level, right, path, env);
      n.view.menuItem == n.props.menuItem.fields
      && n.view.menuItem[TypeKey] == Str("submenu")
      && |n.view.children| == |item.submenu.items|
  {
    MergeIdempotent(env.defaults, item.fields);
  }

  /** A SubMenu with no entry of its own (the default props) renders no children. */
  lemma DefaultSubMenuIsEmpty(right: int, path: Path, env: Env)
    ensures Render(DefaultProps(right, path), env).children == []
    ensures Render(DefaultProps(right, path), env).level == 1
  {
  }
}
