# Terminator navigation helpers, widget enumeration and dict_diff in Dafny

This project models the algorithmic part of Terminator's `terminatorlib/util.py`, a tiling terminal emulator's utility module. It has three parts.

- **Directional navigation geometry** (`navigation.dfy`, module `Navigation`).
  - A pane's on-screen rectangle is an `Allocation(x, y, width, height)`.
  - A move direction is the string `"left"`, `"up"`, `"right"` or `"down"`, as in the Python code. Any other string gets the `ValueError` branch, modelled as a `Failure` result with the source's message.
  - `GetEdge` returns the edge of the focused pane facing the move, together with the pane's perpendicular span.
  - `GetNavPossible` decides whether another rectangle lies beyond that edge with an inclusively overlapping span.
  - `GetNavOffset` gives the distance to it, and `GetNavTiebreak` is the cursor-alignment test.
  - The lemmas check these formulas against independent point-set definitions (`Beyond`, `Meets`, `NearestDistance`, `Contains`). They prove candidacy symmetric, and they show offsets of candidates are non-negative distances.
- **Widget enumeration** (`widgets.dfy`, module `Widgets`).
  - The widget tree is a value, `Node = Container(children) | Terminal(id) | Other(children)`. The variant tag stands for the toolkit's class check.
  - `enumerate_descendants` is modelled loop for loop as methods over a `seq<Node>` work list. `SortChildren` is the inner `for`, `DrainQueue` the `while`, `VisitChild` the body of the outer `for`, and `EnumerateDescendants` the outer `for` itself.
  - They are proved equal to `Walk`, a function that fixes the exact visiting order. Each direct child's subtree is drained breadth-first before the next direct child is looked at.
  - Lemmas prove that every container and terminal reached through containers is collected exactly as often as it is reached. The starting widget is never collected, and widgets of other kinds are dropped together with everything below them.
- **`dict_diff`** (`dicts.dfy`, module `Dicts`).
  - It is a loop over the reference keys that builds the map of keys whose values differ in the working map. A reference key missing from `working` ends in a `KeyError` result.
  - Its partner is the specification `Diff`. Lemmas prove its doctest, that writing the diff over the reference gives back the working values, and that keys only `working` has are ignored.

`wrappers.dfy` holds the `Option` and `Result` datatypes shared by the three modules.

Four behaviours of the code are worth stating outright:
- The walk of `enumerate_descendants` is breadth-first within each direct child only. The draining `while` sits inside the `for` over the starting widget's children (terminatorlib/util.py:248-261), so each direct child's subtree is finished before the next direct child is looked at. `Walk` models that order.
- Containers and terminals below a widget that is neither a container nor a terminal are never collected, because that widget is neither queued nor collected (terminatorlib/util.py:249-260). `OtherChildIgnored` states this for the walk.
- A `None` parent is logged and gives `None` (terminatorlib/util.py:244-246), so `EnumerateDescendants` returns `None`.
- Candidacy in `get_nav_possible` uses `<=` and `>=`. So a rectangle touching the edge is a candidate at offset 0, and spans that meet only at a corner count as overlapping. `GridCornerTouchIsCandidate` shows that in a 2x2 grid both right-hand panes are right candidates of the top-left pane.

## Model

| member | source | states |
|---|---|---|
| Navigation.GetEdge | terminatorlib/util.py:172-188 | an edge is returned exactly for the four direction names; every other string is a ValueError, with no default branch |
| Navigation.GetNavPossible | terminatorlib/util.py:191-205 | answers exactly for the four direction names; every other string is a ValueError |
| Navigation.GetNavOffset | terminatorlib/util.py:208-220 | answers exactly for the four direction names; every other string is a ValueError |
| Navigation.GetNavTiebreak | terminatorlib/util.py:222-230 | answers exactly for the four direction names; every other string is a ValueError |
| Navigation.UnknownDirectionRejected | terminatorlib/util.py:172-230 | for a string outside the four names, all four helpers fail with the ValueError message the source raises ("unknown direction X" from get_edge, "Unknown direction: X" from the others) |
| Navigation.EdgeFacesDirection | terminatorlib/util.py:172-188 | for a well-formed allocation, the edge touches the allocation, the whole allocation lies on the side opposite the move, and (p1, p2) is exactly its perpendicular extent |
| Navigation.NavPossibleMeaning | terminatorlib/util.py:191-205 | for a well-formed rectangle and p1 <= p2, which get_edge of a well-formed allocation supplies, get_nav_possible is true iff every point of it lies at or past the edge in the direction and its perpendicular extent shares at least one coordinate with [p1, p2] |
| Navigation.CandidateOffsetNonNegative | terminatorlib/util.py:196-218 | for any candidate, with no well-formedness premise, the offset is non-negative and it is 0 exactly when the near boundary touches the edge |
| Navigation.OffsetOfCandidate | terminatorlib/util.py:208-220 | for a well-formed candidate the offset is non-negative, it is 0 exactly when the near boundary touches the edge, and it is the distance from the edge to the candidate's nearest point along the move axis |
| Navigation.CandidateSymmetricHorizontal | terminatorlib/util.py:172-203 | b is a right candidate of a iff a is a left candidate of b, and the two offsets are equal |
| Navigation.CandidateSymmetricVertical | terminatorlib/util.py:172-203 | b is a down candidate of a iff a is an up candidate of b, and the two offsets are equal |
| Navigation.NotOwnCandidate | terminatorlib/util.py:172-203 | a pane with positive width and height is never a candidate of itself in any direction |
| Navigation.TiebreakIgnoresMoveAxis | terminatorlib/util.py:222-230 | the tie-break does not depend on the cursor coordinate along the move axis |
| Navigation.TiebreakMeaning | terminatorlib/util.py:222-230 | for a well-formed rectangle, the tie-break holds iff the line through the cursor along the move axis crosses the rectangle |
| Navigation.GridCornerTouchIsCandidate | terminatorlib/util.py:172-230 | in a 2x2 grid both right-hand panes are right candidates of the top-left pane at offset 0; with the cursor strictly above the shared boundary (0 <= cy < h) only the top-right pane passes the tie-break |
| Navigation.GridSharedBoundaryTies | terminatorlib/util.py:222-230 | in the same grid, with the cursor exactly on the shared boundary (cy == h), both right-hand panes pass the inclusive tie-break |
| Widgets.SortChildren | terminatorlib/util.py:256-260 | the inner loop appends exactly the container children, in order, to the work list and exactly the terminal children, in order, to the terminals |
| Widgets.DrainQueue | terminatorlib/util.py:254-261 | the while loop empties the work list, and what it appends to the containers and terminals is exactly the FIFO drain `Drain` of the list |
| Widgets.VisitChild | terminatorlib/util.py:249-261 | one round of the outer loop appends to the containers and terminals exactly that child's `Step` |
| Widgets.EnumerateDescendants | terminatorlib/util.py:232-264 | a missing parent gives no result; otherwise the result is exactly `Walk` of the parent's children, in that order |
| Widgets.WalkCollectsEachOnce | terminatorlib/util.py:232-264 | the first list holds only containers and the second only terminals; each container or terminal reached through containers occurs in its list exactly as often as it is reached; the two lengths add up to the number of reached descendants |
| Widgets.OtherChildIgnored | terminatorlib/util.py:249-260 | a direct child that is neither a container nor a terminal changes neither returned list, and nothing below it is reached |
| Widgets.RootNotCollected | terminatorlib/util.py:248-261 | the starting widget is not among its own reached descendants, and neither the containers list nor the terminals list the walk returns holds it |
| Dicts.DictDiff | terminatorlib/util.py:153-169 | fails with a KeyError naming a reference key absent from working exactly when some reference key is absent; otherwise the keys of the result are exactly the reference keys whose working value differs, each mapped to its working value |
| Dicts.DiffDoctest | terminatorlib/util.py:157-160 | {'foo': 'bar', 'baz': 'bjonk'} against {'foo': 'far', 'baz': 'bjonk'} gives {'foo': 'far'} |
| Dicts.DictDiffDoctest | terminatorlib/util.py:157-160 | calling `DictDiff` on the doctest's two dictionaries returns Success({'foo': 'far'}) |
| Dicts.DiffRestoresWorking | terminatorlib/util.py:163-169 | when every reference key is in the working map, writing the diff over the reference gives a map with the reference's keys and the working value at every one of them |
| Dicts.DiffIgnoresExtraKeys | terminatorlib/util.py:165-167 | two working maps that both hold every reference key and agree on each of them give the same diff, so keys only the working map has never matter |
| Dicts.DiffOfExtensionEmpty | terminatorlib/util.py:163-169 | a working map that holds every reference key with the reference's value gives an empty diff |

## Left out

- The caller that combines the helpers is not part of this model: it picks the minimum offset among candidates and then applies the tie-break, and that code lives outside util.py. `Candidate` and the symmetry lemmas combine `GetEdge` with `GetNavPossible` and `GetNavOffset`. Only the scenario lemma `GridCornerTouchIsCandidate` applies offsets and the tie-break together.
- `gerr` and `widget_pixbuf` (util.py:53-60, 118-143) are left out: they are GTK dialogs and cairo rendering with floating-point scale factors.
- `path_lookup`, `shell_lookup`, `get_config_dir`, `display_manager`, `spawn_new_terminator` and `manual_lookup` (util.py:72-115, 146-150, 281-298) are left out: they depend on the filesystem, environment variables, the password database and subprocesses, or return a constant URL.
- `make_uuid` and `inject_uuid` (util.py:267-278) are left out: they need random UUIDs and dynamic attribute injection.
- `has_ancestor`, `dbg` and `err` (util.py:47-69) are left out: they are the toolkit's parent walk and logging. The log lines that `enumerate_descendants` writes are not modelled, and neither are the DEBUG flags.
- terminatorlib/layoutlauncher.py is left out: it is a GTK window whose only logic sorts layout names into a widget store.
- terminatorlib/plugins/open_folder.py is left out: it is a menu plugin that runs a shell command.
- The `Factory().isinstance` class check is modelled only as the `Node` variant tag; the factory itself is not modelled.
- Widgets.EnumerateDescendants: widgets are compared as values, not by object identity. Two structurally equal subtrees count as the same node, so "exactly once" is stated as occurrence counts (multisets).
- Widgets.Node: a `Terminal` has no children in the model. The toolkit children of a terminal are only ever enumerated when the terminal itself is the starting widget, and the model then finds nothing.
- Dicts.DictDiff: the model has no key order. Python's result dict lists its keys in the reference dictionary's insertion order, and a `map` drops that order. Likewise, when several reference keys are missing from `working`, the model reports one of them without saying which; Python raises on the first one in insertion order.
- Python's dynamic typing is not modelled: directions are strings, coordinates are unbounded integers, and dictionary values compare with Dafny equality.
