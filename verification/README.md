# Skill tree and hexagon field: a Dafny model

The system is a personal dashboard. It has a canvas skill tree, a canvas
hexagon field, a Go printer for the skill tree, and a server-rendered
sidebar. This project models the logic behind those parts as pure Dafny
functions, methods and lemmas.

- **Skill tree** (`static/ts/skillTree.ts`). Skills are records keyed by
  name. Each has a list of children, a love level, an icon, a centre and an
  unlocked flag. `calculatePositions` lays the tree out recursively:
  - A leaf is one node wide.
  - An inner node spans its children's subtree widths plus a 60-pixel gap
    between neighbours.
  - Each node is centred over its span.
  - Each level sits 200 pixels below the previous one.

  A click is turned into tree coordinates by subtracting the canvas corner
  and the pan offset. It then unlocks the first node in pre-order whose box
  contains the point and which `canUnlock` allows. A skill may be unlocked
  when it is locked and is either the root "Technology Skills" or a child of
  an unlocked skill. Names are wrapped greedily to the node width less a
  gutter on each side. Dragging pans the tree.
- **Hexagon field**, in two revisions:
  - `static/ts/hexGrid.js` draws concentric rings and numbers cells along a
    spiral.
  - `static/ts/hexGrid.ts` draws a 17 x 17 block of cells with checkerboard
    colours and numbers a cell `q + 100 r`.

  In both revisions, hovering a cell paints it red and redraws the
  previously hovered cell. Odd columns are drawn half a row lower. Dragging
  pans the field.
- **Printer** (`cmd/skilltree/main.go`). Sorts skills by descending love
  with an exchange sort, and indents the printed tree two spaces per level.
- **Sidebar** (`internal/components/sidebar.go`). `conditionalClass` builds
  a class attribute from alternating class names and conditions. The four
  navigation links use it to mark the active page.

Modules, one file each:

| Module | Contents |
|---|---|
| `Common` | JavaScript's truncating `%`, absolute value and maximum |
| `SkillGraph` | Skill records, the rank witness for an acyclic tree, and pre-order |
| `SkillLayout` | Subtree widths and the recursive layout |
| `SkillPositions` | The full `calculatePositions` call |
| `SkillUnlock` | `canUnlock`, `checkNodeClick` and `handleClick` |
| `TextWrap` | `wrapText` |
| `Panning` | Both drag schemes |
| `HexRing` | The ring revision's numbering, parity tests and ring drawing |
| `HexRect` | The block revision's numbering, colours and grid enumeration |
| `HexField` | The hover highlight, for either revision |
| `LoveSort` | The printer's sort and indentation |
| `Sidebar` | `conditionalClass` and the sidebar links |

The source's own comments call the ring-mode cell number unique
(`static/ts/hexGrid.js` lines 160 and 184). The spiral formula does not
achieve that: `HexRing.NumberingNotInjective` exhibits two pairs of ring-two
cells that share a number. The model states the formula as written.

## Model

| member | source | states |
|---|---|---|
| Common.JsRem | static/ts/hexGrid.js:245 | JavaScript's `%` truncates toward zero: the remainder differs from the dividend by a multiple of the divisor, is smaller than the divisor in magnitude and takes the sign of the dividend |
| Common.TruncatedDivision | static/ts/hexGrid.js:245 | The quotient truncated toward zero, times the divisor, plus JavaScript's remainder gives back the dividend |
| Common.JsRemTwo | static/ts/hexGrid.js:245 | `n % 2` in JavaScript is 1 only for non-negative odd n and -1 for negative odd n, so `=== 1` misses negative odd columns |
| SkillGraph.PreOrder | static/ts/skillTree.ts:260-281 | The visiting order of `checkNodeClick` starts at the node itself |
| SkillGraph.RankedSameShape | static/ts/skillTree.ts:42-94 | A map with the same keys and child lists as a ranked tree is ranked by the same witness, so updating coordinates or flags keeps the tree acyclic |
| SkillLayout.SubtreeWidth | static/ts/skillTree.ts:50-66 | Every subtree is at least one node wide |
| SkillLayout.ChildWidths | static/ts/skillTree.ts:50-60 | There is one width per child, and each is at least one node wide |
| SkillLayout.WidthFormula | static/ts/skillTree.ts:50-66 | A leaf is one node wide; otherwise the width is the sum of the child widths plus one gap between each pair of neighbours |
| SkillLayout.SiblingsApart | static/ts/skillTree.ts:72-78 | Each child's span starts one width and one gap after the previous one, so neighbouring boxes are at least a gap apart |
| SkillLayout.ChildSpanInside | static/ts/skillTree.ts:72-78 | Every child's span lies inside its parent's span |
| SkillLayout.RepositionFrame | static/ts/skillTree.ts:72-78 | The re-assignment loop gives every child a centre and changes no other entry |
| SkillLayout.RepositionPlaces | static/ts/skillTree.ts:72-78 | A child at index i that is not listed again later ends up centred over the i-th span, at the child level |
| SkillLayout.RepositionUnchanged | static/ts/skillTree.ts:72-78 | When every child already sits at its computed centre, the re-assignment changes nothing |
| SkillLayout.Layout | static/ts/skillTree.ts:42-94 | The node is centred over the subtree width it returns, at its level's height |
| SkillLayout.LayoutWidth | static/ts/skillTree.ts:42-94 | The width the layout returns equals the closed-form subtree width, whatever coordinates the records held before |
| SkillLayout.LayoutFrame | static/ts/skillTree.ts:42-94 | Only the nodes of the subtree get new coordinates; every other record keeps its old ones |
| SkillLayout.LayoutPlacesChildren | static/ts/skillTree.ts:68-78 | After the layout, the i-th child of a node, if not listed again later, is centred over its span one level down |
| SkillLayout.LayoutChildrenPlaces | static/ts/skillTree.ts:50-60 | In a tree where no name is reached twice, laying the children out one after another centres each child over its own span |
| SkillLayout.ReassignIsNoOp | static/ts/skillTree.ts:72-78 | In a tree where no name is reached twice, the re-assignment after the recursive calls writes back the positions those calls already computed |
| SkillLayout.LayoutWithin | static/ts/skillTree.ts:42-94 | Every node of the subtree has a centre at least half a node inside the subtree's span and lies at or below the subtree's level |
| SkillPositions.CalculatePositions | static/ts/skillTree.ts:42-94 | The new canvas width is the larger of the old width and the tree's width plus one node, so it is never narrowed; the set of skills does not change |
| SkillPositions.PositionsKeepRecords | static/ts/skillTree.ts:84-91 | Names, child lists, love and icons stay; exactly the already-unlocked skills and the root end up unlocked; the tree stays ranked |
| SkillPositions.PositionsRoot | static/ts/skillTree.ts:42-94 | The returned width is the root's subtree width, and the root is centred over it at the top |
| SkillPositions.PositionsFitCanvas | static/ts/skillTree.ts:84-91 | Every node reachable from the root has its whole box fit horizontally on the widened canvas, and its centre is at or below the top edge |
| SkillPositions.PositionsOutsideTree | static/ts/skillTree.ts:42-94 | Skills the root does not reach keep their coordinates |
| SkillPositions.ExamplePositions | static/ts/skillTree.ts:42-94 | For a root with two leaves, the leaves sit at x = 100 and 360 on the second level and the root at x = 230, with width 460 on a 1400-pixel canvas |
| SkillUnlock.CanUnlock | static/ts/skillTree.ts:283-296 | A skill may be unlocked exactly when it is locked and is the root or a child of some unlocked skill |
| SkillUnlock.First | static/ts/skillTree.ts:260-281 | The reference search returns a listed name that passes the box-and-unlock test, and returns nothing exactly when no listed name passes |
| SkillUnlock.FirstIsEarliest | static/ts/skillTree.ts:260-281 | A passing name that every earlier name fails is the one found |
| SkillUnlock.FindClickIsFirst | static/ts/skillTree.ts:260-281 | The recursive search with its early return finds exactly the first node of the subtree's pre-order that is under the cursor and may be unlocked |
| SkillUnlock.ClickUnlocksFirst | static/ts/skillTree.ts:260-281 | A click reports a hit exactly when some node of the subtree qualifies; it then unlocks the first one and nothing else, and otherwise changes nothing |
| SkillUnlock.ClickKeepsShape | static/ts/skillTree.ts:268-270 | A click never re-locks a skill or changes a child list, so the tree stays ranked |
| SkillUnlock.ClickKeepsConnected | static/ts/skillTree.ts:283-296 | If every unlocked skill is the root or has an unlocked parent, a click keeps it so |
| SkillUnlock.PositionsKeepConnected | static/ts/skillTree.ts:84-91 | The layout keeps that invariant: it only unlocks the root |
| SkillUnlock.ClickWhereDrawn | static/ts/skillTree.ts:251-258 | A click hits a node exactly when the cursor is inside the node's box as drawn, shifted by the canvas corner and the pan offset |
| SkillUnlock.HandleClickPanInvariant | static/ts/skillTree.ts:251-258 | Moving the pan offset and the cursor by the same amount changes no click outcome |
| TextWrap.Split | static/ts/skillTree.ts:228 | Splitting on single spaces yields at least one word, and no word contains a space |
| TextWrap.JoinSplit | static/ts/skillTree.ts:228 | Joining the split words with single spaces gives back the original text |
| TextWrap.SplitJoin | static/ts/skillTree.ts:228 | Splitting space-free words joined with single spaces gives back the words |
| TextWrap.BreakLines | static/ts/skillTree.ts:233-248 | The lines partition the words in order; each line is its words each followed by a space; every test line measured while a line grew, of two or more words, fits the width; a break happens only when adding the next word would overflow |
| TextWrap.LineFitsWhole | static/ts/skillTree.ts:234-245 | A drawn line of more than one word fits the width |
| TextWrap.WrapUnique | static/ts/skillTree.ts:233-248 | For a given measure and width the lines are determined: two wrappings of the same words with those properties are identical, so they are exactly what the greedy loop draws |
| TextWrap.WrapText | static/ts/skillTree.ts:221-249 | At least one line is drawn; the lines are a wrapping of the split text in the sense of `BreakLines`, which `WrapUnique` shows to be the only one, drawn one line height apart from the given top |
| TextWrap.DrawName | static/ts/skillTree.ts:208-214 | A node's name is wrapped to the node width less a 20-pixel gutter on each side, with the first line at the node's centre and each further line 20 pixels lower |
| TextWrap.WrapKeepsWords | static/ts/skillTree.ts:233-248 | Reading the wrapped lines in order gives back every word, each followed by one space: wrapping loses or reorders nothing |
| Panning.StartDragging | static/ts/skillTree.ts:104-108 | Pressing the button starts a gesture without moving the tree |
| Panning.Drag | static/ts/skillTree.ts:110-123 | Outside a gesture a move changes nothing; inside, the gesture continues from the new cursor position |
| Panning.StopDragging | static/ts/skillTree.ts:125-127 | Releasing ends the gesture where the tree is |
| Panning.DragTelescopes | static/ts/skillTree.ts:110-123 | Over any run of moves, the incremental offsets add up to the start offset plus the displacement from the press point to the last cursor position |
| Panning.DragIdle | static/ts/skillTree.ts:110-123 | Moves outside a gesture change nothing |
| Panning.MouseDown | static/ts/hexGrid.ts:71-79 | Pressing starts a gesture and remembers the current offset |
| Panning.MouseMove | static/ts/hexGrid.ts:81-102 | Outside a gesture a move changes nothing; inside, the remembered offset and press point stay fixed |
| Panning.MouseUp | static/ts/hexGrid.ts:104-106 | Releasing ends the gesture where the field is, so a further move leaves the field in place |
| Panning.HexMovesAbsolute | static/ts/hexGrid.js:60-72 | In the hexagon field only the last move of a gesture matters |
| Panning.HexMoveIdle | static/ts/hexGrid.js:60-72 | Moves outside a gesture change nothing |
| Panning.GesturesAgree | static/ts/hexGrid.js:51-72 | The skill tree's incremental panning and the field's absolute panning end at the same offset for the same gesture |
| Panning.InitialGesturesAgree | static/ts/hexGrid.ts:71-102 | Starting from the zero offsets both classes are constructed with, a gesture pans by exactly the displacement from the press point to the last cursor position |
| HexRing.Ring | static/ts/hexGrid.js:191 | The ring of a cell is the largest of its three cube coordinates in magnitude |
| HexRing.SpiralOffset | static/ts/hexGrid.js:207-221 | The offset along the spiral lies between 0 and ten times the ring |
| HexRing.HexNumber | static/ts/hexGrid.js:185-223 | Only the centre gets 0; ring-one cells get 1 to 6; outer rings get numbers above the ring-one block |
| HexRing.RingOneIsTable | static/ts/hexGrid.js:192-206 | The six table entries are exactly the cells of ring one |
| HexRing.RingOneNumbers | static/ts/hexGrid.js:192-206 | The table gives (0,-1) 2, (1,-1) 3, (1,0) 4, (0,1) 5, (-1,1) 6 and (-1,0) 1, so ring one's numbers are exactly 1 to 6 |
| HexRing.RingOneBijection | static/ts/hexGrid.js:192-206 | Ring one's numbers are exactly 1 to 6, and distinct ring-one cells get distinct numbers |
| HexRing.NumberingNotInjective | static/ts/hexGrid.js:207-221 | The spiral formula gives two ring-two cells the number 20 and two others the number 16, and a ring-three cell also gets 20 |
| HexRing.ShiftTestsAgree | static/ts/hexGrid.js:245 | The hover's even-column test and the redraw's `=== 1` test agree exactly on non-negative and even columns |
| HexRing.RestoreFill | static/ts/hexGrid.js:247 | The redraw colour is dark on even checkerboard squares and cyan on odd ones |
| HexRing.DrawRingGrid | static/ts/hexGrid.js:123-141 | Drawing r rings paints 1 + 3r(r+1) cells: the centre cyan, six corner cells per ring, and the inner side cells in the other colour |
| HexRect.HexNumberInjective | static/ts/hexGrid.ts:277-281 | While both columns stay in a window narrower than 100, the number `q + 100 r` identifies its cell |
| HexRect.DrawnCellsNumberedUniquely | static/ts/hexGrid.ts:31-38 | On the drawn 17 x 17 block every cell has its own number |
| HexRect.HexNumberWideCollision | static/ts/hexGrid.ts:277-281 | With a column of 100 the numbering collides: (100, 0) and (0, 1) share a number |
| HexRect.OddColumnIsOdd | static/ts/hexGrid.ts:199 | The `% 2 !== 0` shift test holds exactly for odd columns, negative ones included |
| HexRect.GridFill | static/ts/hexGrid.ts:202-205 | The grid is a checkerboard: cyan where row + column is even, dark where it is odd |
| HexRect.RestoreFillInvertsGrid | static/ts/hexGrid.ts:312 | The redraw colour is always the opposite of the grid colour |
| HexRect.CorrectedRestoreFill | static/ts/hexGrid.ts:202-205 | The corrected redraw colour equals the grid colour |
| HexRect.GridIndexBijective | static/ts/hexGrid.ts:192-210 | Row-major enumeration gives each cell of the block a distinct index below the cell count |
| HexRect.DrawRow | static/ts/hexGrid.ts:193-209 | One row appends 2w + 1 cells, keeps what was drawn before, and puts each column's cell at its offset |
| HexRect.DrawHexagonGrid | static/ts/hexGrid.ts:192-210 | The grid draws (2w + 1)(2h + 1) cells, and the cell of every (row, column) in range sits at its row-major index with its checkerboard colour and shift |
| HexRect.DrawnGrid | static/ts/hexGrid.ts:31-38 | The constructor's 8 x 8 half-extent draws 289 cells |
| HexField.OnMouseHover | static/ts/hexGrid.ts:221-274 | Hovering the stored cell again paints nothing; otherwise the new cell is painted red last, after the previous cell is redrawn when there was one; the cell is remembered |
| HexField.HoverTwiceIsNoOp | static/ts/hexGrid.ts:246-252 | A second hover over the same cell draws nothing |
| HexField.RestoreMatchesHighlight | static/ts/hexGrid.js:169-171 | The redraw shows the same number the highlight showed, and lands in the same place exactly when the two parity tests agree on that column |
| HexField.RingRestoreMisplaced | static/ts/hexGrid.js:245 | In the ring revision the redraw lands elsewhere exactly for negative odd columns |
| HexField.Apply | static/ts/hexGrid.ts:297-319 | Painting covers every painted position, and the last paint wins at its position |
| HexField.HoverKeepsOneHighlight | static/ts/hexGrid.ts:221-274 | When the redraw uses the hover's parity test and never paints red, a hover keeps at most one red cell on screen, and that is the hovered one |
| HexField.RectKeepsOneHighlight | static/ts/hexGrid.ts:221-274 | The block revision keeps at most one red cell on screen |
| HexField.CorrectedRingKeepsOneHighlight | static/ts/hexGrid.js:145-183 | The ring revision with a matching redraw parity keeps at most one red cell on screen |
| HexField.RingHoverLeavesStaleHighlight | static/ts/hexGrid.js:145-183 | As written, hovering (-1, 0) and then the centre leaves two red cells on screen |
| HexField.CorrectedRectRestoresGrid | static/ts/hexGrid.ts:297-319 | With the corrected colour, a cell the cursor leaves is repainted exactly as the grid drew it, in colour and position |
| HexField.RectRestoreDiffersFromGrid | static/ts/hexGrid.ts:312 | As written, a cell the cursor leaves is repainted in the opposite colour |
| LoveSort.SortByLove | cmd/skilltree/main.go:136-142 | The result is a permutation of the input in non-increasing love order, and an already ordered list is left as it is |
| LoveSort.PullMax | cmd/skilltree/main.go:137-141 | One pass moves a largest remaining love to position i without disturbing the sorted prefix |
| LoveSort.Swap | cmd/skilltree/main.go:139 | Swapping exchanges two positions, keeps the others, and preserves the multiset |
| LoveSort.Indentation | cmd/skilltree/main.go:121-123 | The indentation is two spaces per level |
| LoveSort.IndentationStep | cmd/skilltree/main.go:121-123 | One level deeper adds exactly two spaces |
| Sidebar.AppendPairsSpec | internal/components/sidebar.go:111-117 | The fold panics exactly when the list has odd length and ends in a class name; otherwise it appends each class whose condition is true, in order, each after one space |
| Sidebar.TokensLength | internal/components/sidebar.go:111-117 | Each appended class costs its own length plus one space |
| Sidebar.ConditionalClassSpec | internal/components/sidebar.go:108-120 | The result is the base class followed by the selected classes; with no true condition it is the base class unchanged |
| Sidebar.LinkClass | internal/components/sidebar.go:25-28 | A link with complementary conditions gets the base class followed by exactly one of the active and inactive classes |
| Sidebar.SidebarHighlight | internal/components/sidebar.go:22-81 | Each link is highlighted exactly when the active page is its page, "" counts as home, at most one link is highlighted, and one is highlighted exactly when the active link names a page |

## Left out

- Canvas drawing is left out. Hexagon and rectangle paths, colours of the
  node boxes, text measurement and icons are not modelled. The order of the
  `fillText` calls is modelled as a list of lines, and `measureText` is a
  function parameter.
- The pixel maths of the hexagon field is left out. This covers cell
  centres from trigonometry and rounding a cursor position to an axial
  cell. The hover takes the rounded cell as input, and screen positions are
  modelled as column and half-row.
- DOM and event wiring is left out: listeners and `getBoundingClientRect`.
  The canvas corner and client positions are parameters.
- Floating point is modelled as exact reals. The layout only adds, halves
  and multiplies by small integers, so no rounding is modelled.
- SkillGraph.Ranked: the model requires a rank witness, which is a
  decreasing natural number along every child link. The source recurses
  over child names without checking them. On a dangling name it throws, and
  on a cycle it recurses until the stack overflows. Neither failure is
  modelled. The witness is also demanded of skills the root never reaches,
  which the source never visits during layout, drawing or clicking, so a map
  whose unreachable entries are malformed (a dangling name, or a cycle) is
  accepted by the source but excluded by the model.
- SkillPositions.CalculatePositions: the DOM write of the canvas width is
  represented by the returned `canvasWidth`. The constructor's constant
  canvas height of 800 is not modelled.
- SkillPositions.PositionsFitCanvas: the box is bounded horizontally only.
  Vertically the contract states that each centre is at or below the top
  edge. The root's box reaches half a node height above it, because the root
  is centred at y = 0.
- LoveSort.SortByLove: the result is proved sorted and a permutation, and an
  already ordered list is proved to come back unchanged. Beyond that, the
  contract does not say that the strict `<` never swaps two skills of equal
  love, and it does not fix the order of equal-love skills, because the
  exchange sort is not stable.
- The JSON loading, `printProgrammingLanguagesTree`'s recursion and output, and the
  rest of `main.go` are I/O and are left out. Only the sort and the
  indentation are modelled.
- The rest of the sidebar HTML (icons, headings, `hx-target`) is left out.
  Only the link targets, texts and class attributes are modelled.
- The compiled copies of the skill tree are left out because they repeat
  `skillTree.ts`.
- HexRing.RestoreFill: the ring revision draws its rings in cyan, purple and
  crimson, but its redraw uses the checkerboard colours. So every redrawn
  ring cell changes colour. The model states the redraw colour but does not
  treat this as a finding, because that revision never draws a checkerboard.

## Findings

| source | as written | input that shows it | evidently intended | confidence | as-written member | corrected member |
|---|---|---|---|---|---|---|
| static/ts/hexGrid.js:245 | The redraw shifts a column when `col % 2 === 1`, while the hover shifts when `q % 2 === 0` fails; JavaScript's `%` gives -1 for negative odd columns | Hover (-1, 0), then (0, 0): the first cell's redraw lands half a row above its red highlight, leaving two red cells | Both use the same parity test, so the previous cell is redrawn over its highlight | not executed | HexField.RingHoverLeavesStaleHighlight | HexField.CorrectedRingKeepsOneHighlight |
| static/ts/hexGrid.ts:312 | The redraw colour is cyan when row + column is odd, while the grid paints those cells dark | Hover any cell and move away: cell (0, 0) is drawn cyan and redrawn dark | The redraw uses the grid's colour, restoring the cell | not executed | HexField.RectRestoreDiffersFromGrid | HexField.CorrectedRectRestoresGrid |
