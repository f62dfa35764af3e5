# SubMenu layout and render tree of electron-titlebar

This project models the nested application menu of a custom Electron title bar: the SubMenu component, which renders one dropdown panel and, for each of its entries, either a leaf menu item or another SubMenu (a flyout). For every flyout it decides which side of the parent panel to open on, and the horizontal right edge the flyout then has, from the parent's right edge, the theme's menu width and the window width.

The model is pure, like the component:

- `MenuItems` (MenuItem.dfy): a menu entry is a map of plain properties plus its `submenu` property. It also defines the spread `{ ...defaultMenuItem, ...menuItem }` as a map union in which the entry's own keys win. The React key `${i}${menuItem.label}` is defined here too.
- `SubMenu` (SubMenu.dfy): `Layout` is the placement rule. `GenerateMenu`, `Child` and `Render` are the mutually recursive walk `generateMenu` → nested `<SubMenu>` → `render()` → `generateMenu(menuItem.submenu)`.
- `MenuTree` (MenuTree.dfy): properties of the model. It has the placement cases and the encoding of paths. It also addresses the input and output trees by position, which lets it prove that at every depth the render tree mirrors the input tree.

`window.innerWidth`, `theme.menuWidth` and `defaultMenuItem` become the parameters `Env(windowWidth, menuWidth, defaults)`. The contents of `defaultMenuItem` are not part of this model, so it is an arbitrary map.

In JavaScript, `if (menuItem.submenu)` tests truthiness. An empty array is truthy, so an entry with `submenu: []` still becomes a nested SubMenu, with an empty panel. The model keeps this: `Entries([])` gives a `Sub` node with no children, and a missing or falsy submenu (`Undefined` or `Falsy`) gives a leaf. The "more space" comparison in the overflow branch computes two values and acts on neither. `Layout` keeps it that way, so in that branch the submenu stays on the right and overflows the window. `LayoutBoundaryOverflows` shows a case where the left side would have fitted exactly.

## Model

| member | source | states |
|---|---|---|
| SubMenu.Layout | app/components/TitleBar/MenuBar/MenuList/SubMenu/index.js:39-57 | a right-side placement sits one menu width right of the parent edge; a left-side one sits one menu width left of it, happens only when the right side overflows, and leaves more than one menu width of room |
| MenuTree.LayoutNoOverflow | app/components/TitleBar/MenuBar/MenuList/SubMenu/index.js:40-45 | if the parent edge plus the menu width is within the window, the side is right and the edge is parent edge plus menu width |
| MenuTree.LayoutFlipsLeft | app/components/TitleBar/MenuBar/MenuList/SubMenu/index.js:45-48 | on overflow with menuWidth < parentRight - menuWidth, the side is left, the edge is parent edge minus menu width, and that edge exceeds the menu width |
| MenuTree.LayoutNoRoomStaysRight | app/components/TitleBar/MenuBar/MenuList/SubMenu/index.js:49-56 | on overflow without that room, the side stays right at parent edge plus menu width (past the window edge); the free-space comparison changes nothing |
| MenuTree.LayoutLeftIff | app/components/TitleBar/MenuBar/MenuList/SubMenu/index.js:40-57 | the side is left if and only if the right placement overflows and the left condition holds |
| MenuTree.LayoutKeepsInView | app/components/TitleBar/MenuBar/MenuList/SubMenu/index.js:40-57 | if the parent panel is within the window and either the right side fits or the left condition holds, the submenu panel is within the window |
| MenuTree.LayoutBoundaryOverflows | app/components/TitleBar/MenuBar/MenuList/SubMenu/index.js:46-56 | with width 200, parent edge 400 and window 500, a left panel would fit exactly, but the placement is right at 600, outside the window |
| MenuTree.SiblingsShareSide | app/components/TitleBar/MenuBar/MenuList/SubMenu/index.js:36-48 | all submenu siblings in one panel get the same side and right edge, namely the parent's Layout, whatever their index or entry |
| SubMenu.GenerateMenu | app/components/TitleBar/MenuBar/MenuList/SubMenu/index.js:35-36 | one child per entry, in order; child i has key Key(i, entry) and is a nested SubMenu exactly when the entry has a submenu |
| SubMenu.Child | app/components/TitleBar/MenuBar/MenuList/SubMenu/index.js:37-81 | the child has the key `${i}${label}` and is a nested SubMenu exactly when the entry's submenu is present |
| SubMenu.Render | app/components/TitleBar/MenuBar/MenuList/SubMenu/index.js:84-111 | when the submenu is undefined or an array: the rendered entry is the props' entry merged over the defaults, the wrapper gets the props' level and side, an undefined submenu gives no children (the `[]` default of `generateMenu`), and otherwise there is one child per submenu entry |
| SubMenu.DefaultProps | app/components/TitleBar/MenuBar/MenuList/SubMenu/index.js:122-127 | a SubMenu given only `right` and `path` has an empty entry with no submenu, level 1 and side right |
| MenuTree.GenerateMenuAt | app/components/TitleBar/MenuBar/MenuList/SubMenu/index.js:35-111 | a node exists at a position exactly when an entry does; a submenu entry gives a SubMenu with level + depth, the placement rule iterated depth times, path = parent path ++ encoded positions, item = entry over defaults with type 'submenu'; any other entry gives a leaf with its index, the merged entry and the unchanged panel path |
| MenuTree.SameDepthSamePlacement | app/components/TitleBar/MenuBar/MenuList/SubMenu/index.js:39-62 | any two nested SubMenus at the same depth of the tree have the same side, right edge and level |
| MenuTree.LeafLocatesItem | app/components/TitleBar/MenuBar/MenuList/SubMenu/index.js:67-78 | a leaf's path starts with the root path, the rest decodes to its panel's positions, and those positions plus the leaf's index give back the leaf's position and its entry |
| MenuTree.NestedSubMenuShowsItsProps | app/components/TitleBar/MenuBar/MenuList/SubMenu/index.js:59-68 | a nested SubMenu renders exactly the item it was given (the second merge at render time changes nothing), with type 'submenu' and one child per submenu entry |
| MenuTree.DefaultSubMenuIsEmpty | app/components/TitleBar/MenuBar/MenuList/SubMenu/index.js:122-127 | with the default props (empty entry, level 1) render produces no children |
| MenuTree.EncodePath | app/components/TitleBar/MenuBar/MenuList/SubMenu/index.js:67 | a path for n positions has 2n steps |
| MenuTree.DecodeEncode | app/components/TitleBar/MenuBar/MenuList/SubMenu/index.js:67 | decoding the encoded positions gives them back |
| MenuTree.EncodeDecode | app/components/TitleBar/MenuBar/MenuList/SubMenu/index.js:67 | every path that decodes is the encoding of what it decodes to |
| MenuItems.Merge | app/components/TitleBar/MenuBar/MenuList/SubMenu/index.js:76 | the merged entry has the keys of both maps; each of the entry's keys keeps the entry's value; each default key the entry lacks keeps the default |
| MenuItems.SubmenuFields | app/components/TitleBar/MenuBar/MenuList/SubMenu/index.js:66 | like Merge, and additionally type is 'submenu' whatever the entry says |
| MenuItems.MergeIdempotent | app/components/TitleBar/MenuBar/MenuList/SubMenu/index.js:66-94 | merging the defaults under an already merged entry (plain or submenu) changes nothing |
| MenuItems.Natural | app/components/TitleBar/MenuBar/MenuList/SubMenu/index.js:60 | the decimal text of an index is non-empty, all digits, has no leading zero unless the index is 0, and is one character long exactly for indices below 10 |
| MenuItems.NaturalValue | app/components/TitleBar/MenuBar/MenuList/SubMenu/index.js:60 | the decimal text of n, read back as digits, denotes n |
| MenuItems.TemplateText | app/components/TitleBar/MenuBar/MenuList/SubMenu/index.js:60 | a template literal prints a string as itself, a missing property as `undefined`, a boolean as `true`/`false`, null as `null`, and an integer as its decimal digits (with `-` when negative, no leading zero) |
| MenuItems.Key | app/components/TitleBar/MenuBar/MenuList/SubMenu/index.js:60-74 | a key is the decimal digits of the index (denoting the index) followed by the printed label |
| MenuItems.NaturalInjective | app/components/TitleBar/MenuBar/MenuList/SubMenu/index.js:60 | different indices have different decimal texts |
| MenuItems.SameLabelDistinctKeys | app/components/TitleBar/MenuBar/MenuList/SubMenu/index.js:60-74 | two children at different indices whose labels match get different keys |
| MenuItems.KeysMayCollide | app/components/TitleBar/MenuBar/MenuList/SubMenu/index.js:60 | keys are not unique in general: index 1 labelled "1a" and index 11 labelled "a" both give "11a" |

## Left out

- app/components/TitleBar/WindowControls/index.js is not part of this model. It is a thin wrapper over the Electron window handle: listeners, React state and button markup with no logic of its own.
- Styling is left out because it is presentational only. This covers SubMenuWrapper (the ±100% offset, the z-index and the top offset), SubMenuLabel and the `menuSubLabelHeaders` label header.
- The leaf MenuItem component and `defaultMenuItem` are not part of this model. Leaves are the `Leaf` node and the defaults are an arbitrary map.
- Reading `window.innerWidth` is host I/O, so it is a parameter. It is re-read for every submenu entry, and the model assumes it does not change during one render.
- Widths and edges are `int`. The model does not cover JavaScript floating point, or the NaN that an undefined `right` prop would produce.
- The `changeCheckState` callback and the theme object are passed through unchanged and have no behaviour here.
- SubMenu.Render: requires that the entry's submenu is not `null`, `false`, `0` or `""`. For those values `generateMenu`'s default parameter does not apply and `.map` throws a TypeError. Only `undefined` gives no children. Nested SubMenus always receive an array, so within the tree this restriction applies only to the root entry.
- Entries that are themselves `null` or `undefined` inside a submenu array would make the `menuItem.submenu` test throw. The model's entries are always objects, so it cannot express this case.
- A truthy `submenu` that is not an array would make `.map` throw. The model covers arrays and falsy values only.
- An undefined `path` prop would make the spread throw. The model takes the path as a sequence.
- The model keeps `submenu` apart from `Fields` and drops that property from every merged result:
  - The leaf's merged item carries the entry's falsy `submenu` value, or `defaultMenuItem.submenu` when the entry lacks the key.
  - The wrapper MenuItem's merged item carries the SubMenu's own `submenu`. For a nested SubMenu, that is the array of entries.
  - A `"submenu"` key among the plain fields is not treated as the submenu.
- MenuItems.TemplateText: prints every `Num` as its unbounded integer decimal form. This matches JavaScript only for integers of magnitude below 2^53. Larger numbers are not held exactly, and from 1e21 up JavaScript prints exponent form (`1e+21`). Fractional numbers and other JavaScript value kinds are not modelled.
- React lifecycle, prop-types and `withTheme` are left out.
