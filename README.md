# tint core, modelled in Dafny

This project models the logic inside tint, a Svelte component library, and proves properties of that model. It covers eight parts of the library:

- **Menu utilities** (`MenuUtils`, `menu.dfy`, with `Geometry` for rectangles and points).
  - Walking the menu tree along an index path.
  - Building the render and calculation records of a newly opened menu level.
  - The point-in-triangle test that keeps a submenu open while the pointer travels to it.
  - Placing a menu in the viewport.
  - Pushing and popping the parallel stacks of open submenus.
- **Group stores** (`GroupStores`, `group.dfy`). A radio store holds one optional value. A checkbox store holds an array of values. Each is a class with one field, and its methods (`Toggle`, `Select`, `Deselect`, `IsSelected`, `Set`, `Update`) are specified by functions on values.
- **Reorderable action** (`Reorderable`, `reorderable.dfy`). The drag-and-drop and keyboard reordering engine, as a class.
  - Items are element identifiers, each carrying the index it was last given.
  - The drop indicator is a pair of flags: attached and hidden.
  - Events are method calls that receive what the DOM would have supplied.
  - The `reorder`, `dragstarted` and `dragended` events are recorded in sequences.
- **Tooltip action** (`TooltipAction`, `tooltip.dfy`).
  - Pure placement arithmetic.
  - The initialisation test.
  - The shared "active tooltip" state, as a `TooltipRegistry` object shared by every `Tooltip`.
  - Per-tooltip state, with its timers as pending flags fired by explicit methods.
- **Typography importer** (`TypographyImporter`, `typography.dfy`). A line-oriented reader of the SCSS typography map, with four stages:
  - the bracket-counting scan to a custom line format;
  - grouping lines into records;
  - grouping records into categories;
  - classifying the parts of a style name.
- **Colour helpers** (`ColorHelpers`, `colors.dfy`). The colour validator and the SCSS serialiser of a palette.
- **Font preloads** (`FontPreloads`, `fonts.dfy`). The table of six bundled fonts, their URLs, and the preload entries built from them.
- **SVG helpers** (`SvgHelpers`, `svg.dfy`), from the icon preparation script:
  - adding attributes to every opening `<svg>` tag;
  - reading the four `viewBox` values;
  - deciding whether an icon receives a width/height or a viewBox.

Shared pieces:
- `Wrappers` (`wrappers.dfy`) holds `Option` and `Result`. An error is a message, and `Err(TypeError)` stands for an exception the code throws.
- `Strings` (`strings.dfy`) holds the JavaScript string operations the core uses: `trim`, `split` on one character, `join`, `indexOf`, `includes`, the first-match `replace`, and ASCII case mapping.

Behaviour of the code that the model keeps, including where it departs from what the library describes:
- `update` of the reorderable action decides whether to attach the keyboard listener from the option as passed, not from the stored option with its default. Constructing with `{}` attaches the listener, and a later `update({})` detaches it. `Reorderable.KeydownUpdateWithoutOption` shows this.
- The tooltip's horizontal edge check compares a document coordinate against the viewport width. Horizontal scrolling therefore shifts a tooltip away from the anchor. `TooltipAction.EdgeCheckIgnoresScroll` shows this with concrete numbers.
- Two tooltips can be visible at once. A delayed show does not hide the tooltip that is already active (`TooltipAction.TwoDelayedShows`).
- Only the SELECT and AUTOCOMPLETE behaviours set `minWidth`. Only AUTOCOMPLETE clamps the height of a menu that overflows downwards.
- `getFontPreloads([])` returns no entries, because an empty array is a given list of keys.
- The SCSS of a palette with no plain or tint entries still prints an empty line inside that section.
- The function-notation colour prefixes (`rgb(`, `hsl(`, `oklch(` …) are case-sensitive. Only the hex form ignores case.

## Model

| member | source | states |
|---|---|---|
| MenuUtils.Walk | src/lib/components/menu/utils.ts:21-36 | the only failure of a path walk is "Invalid menu path" |
| MenuUtils.GetMenuItems | src/lib/components/menu/utils.ts:21-36 | the loop that reassigns `items` returns exactly the walk of the whole path, or its error |
| MenuUtils.WalkAppend | src/lib/components/menu/utils.ts:25-35 | walking `p ++ q` is walking `p`, then walking `q` from the level reached, with errors propagated |
| MenuUtils.WalkSnoc | src/lib/components/menu/utils.ts:25-35 | one more index yields the `items` of that entry when it opens a submenu; an action, a separator or an out-of-range index is "Invalid menu path" |
| MenuUtils.WalkPrefixOk | src/lib/components/menu/utils.ts:25-35 | every prefix of a valid path is valid |
| MenuUtils.FirstChecked | src/lib/components/menu/utils.ts:55-59 | the first index whose `checked` is truthy, or -1 when none is; a function-valued `checked` counts as truthy |
| MenuUtils.LabelledFrom | src/lib/components/menu/utils.ts:79-88 | the search entries are no more than the items, and each index lies within the level |
| MenuUtils.LabelledFromSound | src/lib/components/menu/utils.ts:79-88 | every search entry names an item with a label and carries that item's label |
| MenuUtils.LabelledFromOrdered | src/lib/components/menu/utils.ts:79-88 | search entries keep the items' order (strictly increasing indices) |
| MenuUtils.LabelledFromComplete | src/lib/components/menu/utils.ts:79-88 | every labelled item has a search entry; separators have none |
| MenuUtils.CreateActiveMenu | src/lib/components/menu/utils.ts:47-93 | it succeeds exactly when the path is valid. Focus is -1 unless the behaviour is SELECT, where it is the first checked ROOT item. The position starts at (-1000, -1000), end-aligned, with no height or min width. Scroll is -1, the search term empty, the search time 0, and the search items are the labelled items of the level |
| MenuUtils.CheckIfInTriangle | src/lib/components/menu/utils.ts:104-115 | accepted exactly when the point is strictly left of the edge from b to c as it is of the edge from a to b, and not strictly left of the edge from a to c as it is of the edge from a to b |
| MenuUtils.CrossOfCombination | src/lib/components/menu/utils.ts:104-115 | the three edge cross products at a convex combination are the weights times the triangle's own |
| MenuUtils.InsideIsAccepted | src/lib/components/menu/utils.ts:104-115 | every strictly interior point of a non-degenerate triangle is accepted, in either orientation |
| MenuUtils.CrossSum | src/lib/components/menu/utils.ts:104-115 | the three edge cross products of a point sum to the triangle's |
| MenuUtils.CrossReconstructs | src/lib/components/menu/utils.ts:104-115 | the edge cross products are the point's barycentric coordinates scaled by the triangle's |
| MenuUtils.AcceptedIsInside | src/lib/components/menu/utils.ts:104-115 | an accepted point on none of the edge lines is a convex combination with positive weights: it is strictly inside |
| MenuUtils.AcceptedSameSide | src/lib/components/menu/utils.ts:104-115 | acceptance means all three edges see the point on the same side |
| MenuUtils.CentroidIsAccepted | src/lib/components/menu/utils.ts:104-115 | the centroid of a non-degenerate triangle is accepted |
| MenuUtils.EdgeDependsOnOrientation | src/lib/components/menu/utils.ts:104-115 | a point on an edge is rejected in one vertex order and accepted in the other |
| MenuUtils.InitialPlacement | src/lib/components/menu/utils.ts:150-194 | an anchored select ends inside the right padding. A root menu sits just below or just above its anchor. A submenu keeps the left padding, sits at the parent's top less the offset, and is end-aligned exactly when it does not flip left |
| MenuUtils.VerticalCorrection | src/lib/components/menu/utils.ts:196-217 | the top ends at least at the padding, and without a height constraint the menu ends inside the bottom padding. A menu already inside both paddings is left as it is |
| MenuUtils.ViewportPlacement | src/lib/components/menu/utils.ts:127-217 | the top is at least the window padding. A submenu (other than an anchored select) also keeps the padding on the left. `endAlign` is false exactly when a submenu flips left. `minWidth` is the parent width exactly for SELECT and AUTOCOMPLETE. Without a clamped height the menu ends within the padding at the bottom |
| MenuUtils.RootMenuPlacement | src/lib/components/menu/utils.ts:150-194 | a root menu starts at the parent's left edge when it fits, otherwise it is right-aligned with the parent. It sits just below the parent when that fits |
| MenuUtils.CalculatePosition | src/lib/components/menu/utils.ts:127-224 | the sequential updates of `coords` give the viewport placement shifted by the scroll offsets |
| MenuUtils.PlaceByBehavior | src/lib/components/menu/utils.ts:150-194 | the first branch chain gives the initial x, y and `endAlign` of each behaviour, leaving height and min width alone |
| MenuUtils.CorrectOverflow | src/lib/components/menu/utils.ts:196-217 | the overflow step moves y, and for AUTOCOMPLETE clamps the height, and nothing else |
| MenuUtils.SliceEnd | src/lib/components/menu/utils.ts:286-289 | `slice(0, end)` keeps `end` entries, counting a negative end from the back, within the length |
| MenuUtils.RemoveSubMenu | src/lib/components/menu/utils.ts:281-290 | both results are prefixes of their inputs, of length `min(menu + 1, length)` for `menu >= -1` |
| MenuUtils.AddSubMenu | src/lib/components/menu/utils.ts:236-271 | when the item opens no submenu the result is null. Otherwise both stacks have length `menu + 2` and keep entries 0..menu. The new top entries are exactly what `CreateActiveMenu` builds for that item with the new path: the current path plus the index, walking to the item's `items`, with the item's rectangle as parent. Valid paths stay valid. An out-of-range `menu` or invalid path is the error the code throws |
| GroupStores.RadioToggled | src/lib/stores/group.ts:50-57 | toggling selects `v` exactly when `v` was not selected, and clears exactly when it was |
| GroupStores.RadioToggleTwice | src/lib/stores/group.ts:50-57 | toggling twice leaves `v` selected if it was, and nothing selected otherwise |
| GroupStores.RadioGroup.constructor | src/lib/stores/group.ts:39-48 | the store starts at the initial value |
| GroupStores.RadioGroup.IsSelected | src/lib/stores/group.ts:59-64 | true exactly when the value is `v`; the store is not changed |
| GroupStores.RadioGroup.Toggle | src/lib/stores/group.ts:50-57 | the new value is the old one toggled by `v` |
| GroupStores.RadioGroup.Select | src/lib/stores/group.ts:66-68 | the value becomes `v` unconditionally |
| GroupStores.RadioGroup.Deselect | src/lib/stores/group.ts:70-72 | the value is cleared whatever the argument |
| GroupStores.RadioGroup.Set | src/lib/stores/group.ts:46-47 | the value becomes the given one |
| GroupStores.RadioGroup.Update | src/lib/stores/group.ts:46-47 | the value becomes the updater applied to the old value |
| GroupStores.IndexOf | src/lib/stores/group.ts:97 | the first index of `v`, or -1 exactly when `v` is absent |
| GroupStores.CheckboxToggled | src/lib/stores/group.ts:94-104 | an absent `v` is appended at the end. A present `v` loses its first occurrence only, and the rest keeps its order |
| GroupStores.ToggleRemovesOne | src/lib/stores/group.ts:97-100 | toggling a present value removes exactly one copy of it |
| GroupStores.ToggleTwiceAbsent | src/lib/stores/group.ts:97-102 | toggling an absent value twice restores the array |
| GroupStores.WithSelected | src/lib/stores/group.ts:113-121 | `v` is present afterwards. Its count is unchanged if it was present, 1 otherwise. Other values are untouched and the old array is a prefix |
| GroupStores.SelectIdempotent | src/lib/stores/group.ts:113-121 | selecting twice is selecting once |
| GroupStores.Without | src/lib/stores/group.ts:123-128 | every copy of `v` is gone and every other element keeps its count |
| GroupStores.WithoutAppend | src/lib/stores/group.ts:123-128 | filtering distributes over concatenation, so the others keep their order |
| GroupStores.WithoutAbsent | src/lib/stores/group.ts:123-128 | deselecting an absent value changes nothing |
| GroupStores.SelectSelectDeselect | src/lib/stores/group.ts:113-128 | after two selects `v` has one copy (or its old count), and a deselect removes it |
| GroupStores.CheckboxGroup.constructor | src/lib/stores/group.ts:81-91 | the store starts at the initial array |
| GroupStores.CheckboxGroup.IsSelected | src/lib/stores/group.ts:106-111 | membership in the array; the store is not changed |
| GroupStores.CheckboxGroup.Toggle | src/lib/stores/group.ts:94-104 | the array becomes the toggled array |
| GroupStores.CheckboxGroup.Select | src/lib/stores/group.ts:113-121 | the array becomes the array with `v` selected |
| GroupStores.CheckboxGroup.Deselect | src/lib/stores/group.ts:123-128 | the array becomes the array without `v` |
| GroupStores.CheckboxGroup.Set | src/lib/stores/group.ts:90-91 | the array becomes the given one |
| GroupStores.CheckboxGroup.Update | src/lib/stores/group.ts:90-91 | the array becomes the updater applied to the old array |
| Reorderable.WithDefaults | src/lib/actions/reorderable.ts:73-77 | after the spread, the item selector and keyboard option are present and the handle selector is the given one. An absent item selector becomes `li` and a present one, even `undefined`, is kept. The keyboard is on exactly when the option is absent or `true`, so a present `undefined` turns it off |
| Reorderable.IsReorderKeyboardEvent | src/lib/actions/reorderable.ts:563-571 | -1 exactly for ArrowUp with Ctrl+Shift and no Alt or Meta, 1 exactly for ArrowDown with the same, 0 otherwise |
| Reorderable.ItemIndex | src/lib/actions/reorderable.ts:466-468 | -1 exactly for an element that was never indexed |
| Reorderable.DropPosition | src/lib/actions/reorderable.ts:455-457 | -1 (before) exactly when the pointer is above the middle of the target, 0 (after) otherwise |
| Reorderable.DropTarget | src/lib/actions/reorderable.ts:444-464 | there is a drop target exactly when the target item is known and indexed; it carries that item, its index and the before/after position |
| Reorderable.DropReorder | src/lib/actions/reorderable.ts:315-351 | a reorder is reported only with something dragged and a target, and names the dragged element and a different target element |
| Reorderable.DropReorderIff | src/lib/actions/reorderable.ts:315-353 | a reorder event fires exactly when something is dragged, there is a target, it differs from the dragged item, and the drop is not back into its own slot. The event carries both elements, the position and both indices |
| Reorderable.KeyboardReorder | src/lib/actions/reorderable.ts:399-437 | no move for a non-reorder key, a missing or untracked element, up from the first or down from the last. Otherwise the target is `from + direction` and the position `min(direction, 0)` |
| Reorderable.KeyboardReorderTracked | src/lib/actions/reorderable.ts:399-437 | for a tracked item at its own index, a reorder key is refused exactly at the two ends |
| Reorderable.KeydownAfterUpdate | src/lib/actions/reorderable.ts:497-503 | the listener is attached after `update` only if the new options enable it or it already was |
| Reorderable.KeydownUpdateWithoutOption | src/lib/actions/reorderable.ts:478-503 | defaults enable the keyboard. `update({})` on an attached handler detaches it, and `update({enableKeyboardReorder: true})` on a detached one does not reattach it |
| Reorderable.Closest | src/lib/actions/reorderable.ts:214-262 | `closest(selector)`: the found element is on the ancestor chain and matches, and nothing is found only when no ancestor matches |
| Reorderable.DraggedFrom | src/lib/actions/reorderable.ts:214-233 | a drag starts only from an element on the target's ancestor chain that matches the item selector |
| Reorderable.DraggedFromFound | src/lib/actions/reorderable.ts:214-262 | a dragged item is found only below a draggable ancestor inside the container, and always matches the item selector |
| Reorderable.ReorderableHandler.GetItemIndex | src/lib/actions/reorderable.ts:466-468 | an item's index is its position in the item list; untracked elements give -1 |
| Reorderable.ReorderableHandler.GetDropTargetInfo | src/lib/actions/reorderable.ts:444-464 | a drop target exists exactly when the item under the pointer is tracked, and it names that item and its index |
| Reorderable.ReorderableHandler.constructor | src/lib/actions/reorderable.ts:71-115 | the options get their defaults and the items are the matching elements, indexed by position. Their draggable flags are set as `DraggableMarked` says: items draggable without handles, otherwise items not draggable and their handles draggable. No drag or target, a hidden indicator, listeners and observer attached, keyboard listener as the defaulted option says, no events |
| Reorderable.ReorderableHandler.PotentiallyCreateIndicator | src/lib/actions/reorderable.ts:117-132 | the indicator is attached, and a newly created one is hidden |
| Reorderable.ReorderableHandler.GetItems | src/lib/actions/reorderable.ts:134-141 | the items are the matching elements and item k carries index k; indices of other elements are kept |
| Reorderable.ReorderableHandler.AddDraggableAttribute | src/lib/actions/reorderable.ts:143-166 | the flags change as `DraggableMarked` says: without handles each given element becomes draggable. With handles each becomes not draggable and each handle found inside one becomes draggable. No other flag changes |
| Reorderable.ReorderableHandler.MarkItem | src/lib/actions/reorderable.ts:146-164 | one item, and with handles its handles, are marked as `DraggableMarked` says for a single element |
| Reorderable.DraggableMarkedCompose | src/lib/actions/reorderable.ts:143-166 | marking one list of elements and then another is marking their concatenation, which is why the loop over items can be taken one item at a time |
| Reorderable.HandlesOfConcat | src/lib/actions/reorderable.ts:154-159 | the handles inside a concatenation are those inside either part |
| Reorderable.AddedItems | src/lib/actions/reorderable.ts:196-200 | the elements marked by `onMutation` are exactly the added items of some mutation record |
| Reorderable.ReorderableHandler.OnMutation | src/lib/actions/reorderable.ts:180-212 | the items are re-read only when a mutation added or removed nodes, and otherwise indices stay as they were. The added items and their handles are marked as `DraggableMarked` says and no other flag changes. The indicator is attached afterwards, and a recreated one is hidden. Classes, options, listeners, drag state and events are unchanged, and indices of elements that are not items are kept |
| Reorderable.ReorderableHandler.MarkAdded | src/lib/actions/reorderable.ts:184-201 | reports a needed update exactly when some mutation added or removed nodes, and a removed indicator exactly when one was removed. All added items, with their handles, are marked as `DraggableMarked` says, and no other draggable flag changes |
| Reorderable.ReorderableHandler.OnDragStart | src/lib/actions/reorderable.ts:214-262 | a drag starts, with a `dragstarted` event, exactly when a tracked draggable item is found; otherwise nothing changes |
| Reorderable.ReorderableHandler.FindDraggedElement | src/lib/actions/reorderable.ts:220-240 | the loop up the ancestor chain finds what `DraggedFrom` describes |
| Reorderable.ReorderableHandler.OnDragOver | src/lib/actions/reorderable.ts:264-297 | the drop target is recomputed and the drop allowed exactly when there is one. The indicator is shown exactly when the target index has an item, and hidden otherwise |
| Reorderable.ReorderableHandler.OnDragLeave | src/lib/actions/reorderable.ts:299-313 | the indicator is hidden when the pointer leaves a matching item for outside the container |
| Reorderable.ReorderableHandler.OnDrop | src/lib/actions/reorderable.ts:315-353 | a reorder event is recorded exactly when `DropReorderIff` allows it. Past the null checks the drag ends with the indicator hidden and one `dragended` event |
| Reorderable.ReorderableHandler.OnDragEnd | src/lib/actions/reorderable.ts:355-371 | no drag remains afterwards; a drag in progress fires one `dragended` and hides the indicator, and with no drag nothing changes |
| Reorderable.DragEndTwice | src/lib/actions/reorderable.ts:355-371 | two drag ends fire at most one `dragended` |
| Reorderable.IndicatorRestored | src/lib/actions/reorderable.ts:117-132 | after the indicator leaves the DOM, the next observed mutation puts it back, hidden |
| Reorderable.ReorderableHandler.OnKeyDown | src/lib/actions/reorderable.ts:373-397 | the key is handled exactly when a keyboard move is possible, and then one reorder event is recorded |
| Reorderable.ReorderableHandler.Update | src/lib/actions/reorderable.ts:475-507 | the options become the new ones with defaults. The handle class toggles only when handles appear or vanish. The keyboard listener follows `KeydownAfterUpdate`. The items are re-read and indexed, and marked as `DraggableMarked` says under the new options. Flags and indices of other elements are kept, and so are the container class, the indicator, listeners, drag state and events |
| Reorderable.ReorderableHandler.ApplyOptions | src/lib/actions/reorderable.ts:476-503 | the defaulted new options are stored. The handle class and the keydown listener change only when the raw new option differs from the stored one in truthiness, and an attached listener still implies the stored option enables it |
| Reorderable.ReorderableHandler.RefreshItems | src/lib/actions/reorderable.ts:505-506 | the items are the matching elements indexed by position, marked as `DraggableMarked` says. Indices of other elements are kept |
| Reorderable.ReorderableHandler.Destroy | src/lib/actions/reorderable.ts:509-549 | classes, listeners, the observer and the indicator are removed. Every item is made not draggable, and with handles so is every handle inside an item. No other flag changes, and items, indices, options, drag state and events are kept |
| Reorderable.ReorderableHandler.RemoveFromDom | src/lib/actions/reorderable.ts:510-534 | no marker class, listener, observer or indicator remains; the keydown listener is removed only when the stored option enables it, which covers every attached case |
| Reorderable.ReorderableHandler.UnmarkItems | src/lib/actions/reorderable.ts:536-548 | the given items, and with handles every handle inside them, are not draggable; every other flag is kept |
| Reorderable.ReorderableHandler.UnmarkItem | src/lib/actions/reorderable.ts:537-546 | one item, and with handles its handles, are not draggable; every other flag is kept |
| TooltipAction.ShouldInitialize | src/lib/actions/tooltip.ts:205-211 | true exactly for text, plain or in options, that is not blank after trimming |
| TooltipAction.InitialOptions | src/lib/actions/tooltip.ts:213-243 | plain text becomes options with no offset; options are taken as given |
| TooltipAction.UpdatedOptions | src/lib/actions/tooltip.ts:457-468 | plain text replaces only the text, keeping the offset; options replace both |
| TooltipAction.PositionTooltip | src/lib/actions/tooltip.ts:58-127 | below exactly when the space under the anchor holds the tooltip and offset. `top` is offset by the scroll, the offset and 6 on the chosen side. At most one edge correction applies, with the arrow shifted back so that `left + arrowOffset` stays at the centred left |
| TooltipAction.TooltipInsideWindow | src/lib/actions/tooltip.ts:84-115 | without horizontal scroll, a tooltip narrower than the window less its padding lies within the padding on both sides |
| TooltipAction.EdgeCheckIgnoresScroll | src/lib/actions/tooltip.ts:84-115 | with `scrollX = 1000` a tooltip over an anchor at x = 0 is pushed 263 units left and lies 308 units left of the viewport |
| TooltipAction.TooltipRegistry.constructor | src/lib/actions/tooltip.ts:23-29 | no tooltip is active or visible at first |
| TooltipAction.Tooltip.constructor | src/lib/actions/tooltip.ts:213-243 | initialised exactly when the options pass `shouldInitialize`, with those options; nothing visible or pending |
| TooltipAction.Tooltip.Initialize | src/lib/actions/tooltip.ts:244-373 | the element and listeners exist afterwards, and options are set only on the first call. A newly created element starts with its popover closed, and an existing one keeps its state |
| TooltipAction.Tooltip.ClearTimeouts | src/lib/actions/tooltip.ts:194-203 | no show or hide is pending |
| TooltipAction.Tooltip.ShowTooltip | src/lib/actions/tooltip.ts:129-166 | with an element the text is shown. Unless the popover call throws, the tooltip is visible and becomes the active one, and the registry says a tooltip is visible. When it throws, visibility and ownership are unchanged |
| TooltipAction.Tooltip.HideTooltip | src/lib/actions/tooltip.ts:168-192 | a no-op unless visible. Otherwise a popover hide is scheduled and ownership is released only if this is the active tooltip. It is never visible afterwards |
| TooltipAction.Tooltip.OnMouseEnter | src/lib/actions/tooltip.ts:265-285 | if another tooltip is visible, its timers are cleared and it is hidden: not visible, a popover hide pending, options, element, listeners, popover and text kept. This one is then shown at once with its text: visible, open and active unless the popover call throws, in which case its visibility is as before and no tooltip is active. Otherwise only a delayed show is scheduled and nothing else changes |
| TooltipAction.Tooltip.HideActive | src/lib/actions/tooltip.ts:268-276 | the other, active tooltip is not visible, has a popover hide pending and keeps its timers, options, element, listeners, popover and text; no tooltip is active |
| TooltipAction.Tooltip.OnFocus | src/lib/actions/tooltip.ts:287-309 | focus that is not `:focus-visible` changes nothing. Focus that is has exactly the outcomes of mouse enter, including those for the hidden tooltip and a throwing popover call |
| TooltipAction.Tooltip.OnMouseLeave | src/lib/actions/tooltip.ts:311-319 | the pending show is cancelled, and a hide is pending exactly when visible |
| TooltipAction.Tooltip.OnMouseEnterTooltip | src/lib/actions/tooltip.ts:321-323 | nothing is pending |
| TooltipAction.Tooltip.OnMouseLeaveTooltip | src/lib/actions/tooltip.ts:325-330 | a hide is pending and no show |
| TooltipAction.Tooltip.OnTogglePopover | src/lib/actions/tooltip.ts:332-342 | closing the popover makes the tooltip not visible and releases ownership if it held it; other toggles change nothing |
| TooltipAction.Tooltip.OnPositionUpdate | src/lib/actions/tooltip.ts:344-348 | the tooltip is placed by `PositionTooltip` exactly when visible |
| TooltipAction.Tooltip.FireShowTimer | src/lib/actions/tooltip.ts:277-283 | the delayed show shows the current text and makes the tooltip visible, open and active. When the popover call throws, visibility, the popover and the registry are unchanged. Other timers and the options are kept |
| TooltipAction.Tooltip.FireHideTimer | src/lib/actions/tooltip.ts:311-319 | the delayed hide leaves the tooltip not visible and not active. A popover hide is pending exactly when one was or the tooltip was showing. Ownership is released only if held, and options, element, listeners, the show timer, popover and text are kept |
| TooltipAction.Tooltip.FirePopoverHide | src/lib/actions/tooltip.ts:176-185 | the deferred `hidePopover` closes the popover only while the element still exists |
| TooltipAction.Tooltip.Destroy | src/lib/actions/tooltip.ts:375-441 | a no-op when not initialised. Otherwise it is not visible and not initialised, with no element, listeners, options or timers. It releases ownership if it held it, and its popover is closed because the element has left the document |
| TooltipAction.Tooltip.Update | src/lib/actions/tooltip.ts:449-487 | valid options initialise an uninitialised tooltip, whose new element starts closed; timers, visibility and text are kept. Invalid options destroy an initialised one: no element, listeners, popover or timers, and ownership released if held. An initialised tooltip with valid options only gets its text and offset replaced, with the shown text refreshed when visible; timers, element, listeners and popover are kept |
| TooltipAction.Tooltip.ReplaceOptions | src/lib/actions/tooltip.ts:457-468 | the options are merged as `UpdatedOptions` says and a visible tooltip shows the new text |
| TooltipAction.TwoIdleTooltips | src/lib/actions/tooltip.ts:213-243 | two tooltips share one registry and start idle |
| TooltipAction.TwoDelayedShows | src/lib/actions/tooltip.ts:265-285 | two delayed shows leave both tooltips visible at once |
| TypographyImporter.ToTitleCase | scripts/typography-importer.ts:66-71 | "ui" gives "UI"; otherwise each word is title-cased, and the result differs from the input only in letter case |
| TypographyImporter.TitleWords | scripts/typography-importer.ts:68-70 | title-casing keeps the length |
| TypographyImporter.TitleWordsOnlyCase | scripts/typography-importer.ts:68-70 | title-casing changes nothing but letter case and keeps every whitespace position |
| TypographyImporter.TitleWordsSplitAtSpace | scripts/typography-importer.ts:68-70 | words are title-cased independently on either side of whitespace |
| TypographyImporter.TitleWordsOfWord | scripts/typography-importer.ts:68-70 | a word starting with a word character gets its first letter upper-cased and the rest lower-cased |
| TypographyImporter.KebabToCamel | scripts/typography-importer.ts:72-74 | no hyphen before a lower-case letter remains, the result is no longer, and a string without such a hyphen is unchanged |
| TypographyImporter.KebabToCamelIdempotent | scripts/typography-importer.ts:72-74 | converting twice is converting once |
| TypographyImporter.FirstStyleLine | scripts/typography-importer.ts:78-80 | an index within the lines, or -1 |
| TypographyImporter.FirstStyleLineIsFirst | scripts/typography-importer.ts:78-85 | -1 exactly when no line opens the styles map; otherwise the first line that does |
| TypographyImporter.DropTrailingCommaSpec | scripts/typography-importer.ts:97 | exactly one trailing comma is dropped, and a line without one is kept |
| TypographyImporter.IsSkippedIff | scripts/typography-importer.ts:99-106 | skipped lines are exactly `)`, `),`, `(` and lines starting with `//` |
| TypographyImporter.IsOpeningIff | scripts/typography-importer.ts:108 | header lines are exactly those ending in `: (` or `:` |
| TypographyImporter.FormatLineNotSkipped | scripts/typography-importer.ts:97-113 | a line yields nothing exactly when skipped, and what it yields is never a bracket or a comment |
| TypographyImporter.FormatLineHeader | scripts/typography-importer.ts:108-111 | a header becomes `> ` and a name without a colon |
| TypographyImporter.ScanLines | scripts/typography-importer.ts:89-114 | one scanned entry per line |
| TypographyImporter.ScanBodyNoSkipped | scripts/typography-importer.ts:89-114 | the scan never emits a skipped line |
| TypographyImporter.CustomFormat | scripts/typography-importer.ts:76-116 | a stylesheet with no line opening the styles map gives no lines |
| TypographyImporter.CustomFormatNoSkipped | scripts/typography-importer.ts:76-116 | the custom format never holds a lone bracket or a comment |
| TypographyImporter.ScanBodyStops | scripts/typography-importer.ts:89-96 | the scan emits exactly the formatted lines before the first line where the running count, from 1, reaches 0 |
| TypographyImporter.ToCustomFormat | scripts/typography-importer.ts:76-116 | the loop computes `CustomFormat`: [] when no line opens the styles map, else the bracket-bounded scan |
| TypographyImporter.ScanFrom | scripts/typography-importer.ts:86-115 | the loop from a start line computes the scan from that line with count 1 |
| TypographyImporter.ScanOne | scripts/typography-importer.ts:90-113 | one iteration gives the line's bracket change and its output |
| TypographyImporter.StripQuotes | scripts/typography-importer.ts:135 | one leading and one trailing quote are dropped; an unquoted key is kept |
| TypographyImporter.IsHeader | scripts/typography-importer.ts:123 | a header is a line starting with `>` |
| TypographyImporter.ParseLine | scripts/typography-importer.ts:122-140 | a line starting with `>` names a record after its third character, trimmed. Any other sets the camel-cased unquoted key to the trimmed second colon-separated segment |
| TypographyImporter.ParseLines | scripts/typography-importer.ts:122-140 | every line is parsed on its own |
| TypographyImporter.FlushNamed | scripts/typography-importer.ts:125-127 | only a named record is emitted |
| TypographyImporter.ObjectsFoldKeepsDone | scripts/typography-importer.ts:122-141 | records already emitted are never changed |
| TypographyImporter.ObjectsFoldNamed | scripts/typography-importer.ts:122-146 | every emitted record has a name |
| TypographyImporter.ObjectsOf | scripts/typography-importer.ts:118-147 | every record emitted has a non-empty name |
| TypographyImporter.Objects | scripts/typography-importer.ts:118-147 | every record emitted has a non-empty name |
| TypographyImporter.TransformToObjects | scripts/typography-importer.ts:118-147 | the loop with `currentObject` computes `Objects` |
| TypographyImporter.ReadLine | scripts/typography-importer.ts:123-140 | one iteration is one step of the record fold |
| TypographyImporter.ReadHeader | scripts/typography-importer.ts:124-130 | a header emits the current record if named and starts a new one |
| TypographyImporter.ReadProperty | scripts/typography-importer.ts:133-139 | a property line sets one key of the current record |
| TypographyImporter.ObjectsFoldAppend | scripts/typography-importer.ts:122-141 | reading two blocks of lines is reading one after the other |
| TypographyImporter.PlainPropertiesKeepName | scripts/typography-importer.ts:131-140 | property lines emit nothing and do not create a name |
| TypographyImporter.LeadingLinesDropped | scripts/typography-importer.ts:118-147 | property lines before the first header do not change the records |
| TypographyImporter.Names | scripts/typography-importer.ts:168 | one name per record |
| TypographyImporter.NamesStep | scripts/typography-importer.ts:122-146 | one well-formed line adds its header name, if any |
| TypographyImporter.NamesFollowHeadersFrom | scripts/typography-importer.ts:122-146 | the names emitted are the header names in order |
| TypographyImporter.NamesFollowHeaders | scripts/typography-importer.ts:118-147 | with named headers and no `name` property, the record names are exactly the header names in order |
| TypographyImporter.AllDigitsAt | scripts/typography-importer.ts:182-183 | every character of a digit string is a digit |
| TypographyImporter.NumberValueBlank | scripts/typography-importer.ts:182-183 | a blank part reads as 0, as `Number("")` does |
| TypographyImporter.NumberValueDigits | scripts/typography-importer.ts:182-183 | a digit string reads as its decimal value |
| TypographyImporter.NumberValue | scripts/typography-importer.ts:182-183 | a part read as a number holds only digits and whitespace; a part with any other character is not a number |
| TypographyImporter.IdentifyTypeInfo | scripts/typography-importer.ts:179-194 | the loop over the parts computes `InfoOf` |
| TypographyImporter.ReadPart | scripts/typography-importer.ts:182-191 | one iteration overwrites the field the part speaks about |
| TypographyImporter.LastIndexIn | scripts/typography-importer.ts:181-192 | the last part that is one of the words, or -1 |
| TypographyImporter.KeywordNotNumber | scripts/typography-importer.ts:182-190 | the keywords are not numbers |
| TypographyImporter.ClassifyKeyword | scripts/typography-importer.ts:185-191 | serif/sans set the letterform, bold/italic the modifier, small/large the size |
| TypographyImporter.LevelStep | scripts/typography-importer.ts:182-184 | a numeric part overwrites the level; any other leaves it |
| TypographyImporter.LevelIffNumber | scripts/typography-importer.ts:179-194 | a level is set exactly when some part is numeric |
| TypographyImporter.LevelIsLastNumber | scripts/typography-importer.ts:179-194 | the level is the value of the last numeric part |
| TypographyImporter.LetterformStep | scripts/typography-importer.ts:185-186 | serif or sans overwrites the letterform; other parts leave it |
| TypographyImporter.ModifierStep | scripts/typography-importer.ts:187-188 | bold or italic overwrites the modifier; other parts leave it |
| TypographyImporter.SizeStep | scripts/typography-importer.ts:189-190 | small or large overwrites the size; other parts leave it |
| TypographyImporter.LetterformIsLastKeyword | scripts/typography-importer.ts:179-194 | the letterform is given by the last serif/sans part, none without one |
| TypographyImporter.ModifierIsLastKeyword | scripts/typography-importer.ts:179-194 | the modifier is given by the last bold/italic part, none without one |
| TypographyImporter.SizeIsLastKeyword | scripts/typography-importer.ts:179-194 | the size is given by the last small/large part, none without one |
| TypographyImporter.FindCategory | scripts/typography-importer.ts:157 | the first category with the name, or -1 exactly when none has it |
| TypographyImporter.Definitions | scripts/typography-importer.ts:149-177 | at most one category per name, and at least one when there is a name |
| TypographyImporter.TransformToDefinition | scripts/typography-importer.ts:149-177 | the loop over named records computes `Definitions` of their names |
| TypographyImporter.AddObject | scripts/typography-importer.ts:155-173 | one iteration appends a category if new, then the definition to its category |
| TypographyImporter.DistinctCategories | scripts/typography-importer.ts:155-166 | exactly the first dash-segments of the names, without repetition |
| TypographyImporter.DefinitionsInAbsent | scripts/typography-importer.ts:152-174 | a category no name has holds no definition |
| TypographyImporter.DefinitionsGrouped | scripts/typography-importer.ts:149-177 | one category per distinct first segment in order of first appearance, titled by `toTitleCase`. Each holds exactly the definitions of its names in input order |
| TypographyImporter.GroupedStep | scripts/typography-importer.ts:152-174 | adding one record keeps the grouping |
| TypographyImporter.GroupedNew | scripts/typography-importer.ts:159-166 | a new category is appended at the end |
| TypographyImporter.GroupedExisting | scripts/typography-importer.ts:168-173 | a known category gets the definition at its end |
| TypographyImporter.CategoryAbsent | scripts/typography-importer.ts:157-159 | a category not found has no record yet |
| TypographyImporter.ImportTypography | scripts/typography-importer.ts:51-55 | the three stages compose: definitions of the names of the records of the custom format |
| ColorHelpers.IsValidColor | src/stories/utils/ColorGenerator/helpers.ts:49-63 | valid exactly when one of the hex, rgb, hsl or oklch tests passes; a valid colour is at least four characters and starts with `#`, `r`, `h` or `o` |
| ColorHelpers.HexColorIff | src/stories/utils/ColorGenerator/helpers.ts:51 | `#` plus text is valid exactly when that text is three or six hex digits |
| ColorHelpers.FunctionalNotationAccepted | src/stories/utils/ColorGenerator/helpers.ts:54-60 | anything starting with `rgb(`, `rgba(`, `hsl(`, `hsla(` or `oklch(` is valid |
| ColorHelpers.OtherStartRejected | src/stories/utils/ColorGenerator/helpers.ts:62 | a string that cannot start any accepted form is invalid |
| ColorHelpers.HexCaseInsensitive | src/stories/utils/ColorGenerator/helpers.ts:51 | the hex test ignores letter case |
| ColorHelpers.EntryLines | src/stories/utils/ColorGenerator/helpers.ts:8-12 | one line per entry |
| ColorHelpers.PaletteLines | src/stories/utils/ColorGenerator/helpers.ts:8-12 | a palette section prints at least one line |
| ColorHelpers.BlockLines | src/stories/utils/ColorGenerator/helpers.ts:14-25 | a block starts with `$colors: (` |
| ColorHelpers.JoinSplice | src/stories/utils/ColorGenerator/helpers.ts:14-25 | interpolating a joined section into joined lines is joining the flattened lines |
| ColorHelpers.FormatPaletteColorsJoin | src/stories/utils/ColorGenerator/helpers.ts:8-12 | a section is its entry lines joined by newlines, or one empty line |
| ColorHelpers.FormatColorsJoin | src/stories/utils/ColorGenerator/helpers.ts:14-25 | the block is its lines joined by newlines |
| ColorHelpers.BlockLinesSingle | src/stories/utils/ColorGenerator/helpers.ts:14-25 | without line breaks in the values, no block line holds one |
| ColorHelpers.EntryLinesSingle | src/stories/utils/ColorGenerator/helpers.ts:8-12 | without line breaks in keys and values, no entry line holds one |
| ColorHelpers.GenerateScss | src/stories/utils/ColorGenerator/helpers.ts:4-35 | the output starts with the light palette's block, and is exactly that block when no dark palette is given |
| ColorHelpers.ScssLines | src/stories/utils/ColorGenerator/helpers.ts:4-35 | without a dark palette the output's lines are exactly one block: header, the plain and tint entries in order, the general section with `card-shadow` quoted, the closing line |
| ColorHelpers.ScssDarkLines | src/stories/utils/ColorGenerator/helpers.ts:27-34 | with a dark palette the lines are the light block, an empty line, then the dark block with its header renamed `$colors-dark` |
| ColorHelpers.ScssDarkJoin | src/stories/utils/ColorGenerator/helpers.ts:29-32 | the output with a dark palette is those lines joined |
| ColorHelpers.SingleLines | src/stories/utils/ColorGenerator/helpers.ts:29-32 | the combined lines hold no line break |
| ColorHelpers.DarkBlockRenamed | src/stories/utils/ColorGenerator/helpers.ts:31 | only the first `$colors` of the dark block is renamed |
| ColorHelpers.HeaderRenamed | src/stories/utils/ColorGenerator/helpers.ts:31 | the first occurrence of `$colors` is the header's |
| FontPreloads.Font | src/lib/fonts/index.ts:16-59 | each font's URL is the resolved import of its own file |
| FontPreloads.FontKeysComplete | src/lib/fonts/index.ts:16-59 | six keys, each in the table exactly once |
| FontPreloads.FontUrls | src/lib/fonts/index.ts:64 | the URLs of the table in declaration order |
| FontPreloads.Preload | src/lib/fonts/index.ts:96-102 | a preload entry for the font's URL |
| FontPreloads.GetFontPreloads | src/lib/fonts/index.ts:91-103 | with keys, one entry per key in order with that font's URL, duplicates included. Without keys, one entry per font in declaration order. Every entry has rel `preload`, as `font`, type `font/woff2` and crossOrigin `anonymous` |
| FontPreloads.PreloadsForAll | src/lib/fonts/index.ts:91-103 | no keys is the same as all keys in declaration order |
| FontPreloads.PreloadsAppend | src/lib/fonts/index.ts:91-103 | preloading two key lists is preloading each in turn |
| SvgHelpers.FindChar | scripts/prep-svgs.js:105 | the first index of the character from a position, or -1 |
| SvgHelpers.AppendAttributesToTags | scripts/prep-svgs.js:104-113 | attributes are only added, never removed, and text with no `<` is unchanged |
| SvgHelpers.TextKept | scripts/prep-svgs.js:104-113 | text without `<` is copied unchanged |
| SvgHelpers.TagExtended | scripts/prep-svgs.js:104-113 | an opening tag of that name, in any case, gets ` attrs` before its first `>`, and the scan continues after it |
| SvgHelpers.NoClosingUnchanged | scripts/prep-svgs.js:104-113 | text with no `>` is unchanged |
| SvgHelpers.TakeValue | scripts/prep-svgs.js:117 | a value is the longest prefix of value characters |
| SvgHelpers.ParseValues | scripts/prep-svgs.js:117 | a successful parse has exactly the requested number of values |
| SvgHelpers.ExtractNoneIff | scripts/prep-svgs.js:115-126 | null exactly when no position starts a `viewBox = "…"` attribute of four values |
| SvgHelpers.ExtractLeftmost | scripts/prep-svgs.js:115-126 | the result is the match at the leftmost such position |
| SvgHelpers.ParsedValues | scripts/prep-svgs.js:117 | every parsed value is non-empty without whitespace or quotes |
| SvgHelpers.TakeValueIsValue | scripts/prep-svgs.js:117 | a taken value holds only value characters |
| SvgHelpers.ExtractViewBoxValues | scripts/prep-svgs.js:115-126 | the four values are non-empty and hold no whitespace or quotes |
| SvgHelpers.TakeValueOf | scripts/prep-svgs.js:117 | a value followed by a non-value character is taken whole |
| SvgHelpers.ParseValuesCons | scripts/prep-svgs.js:117 | a value, a space and further values parse to the value followed by the rest |
| SvgHelpers.ViewBoxRoundTrip | scripts/prep-svgs.js:115-126 | extracting from a written `viewBox="a b c d"` gives back the four values |
| SvgHelpers.ExtractSkipsText | scripts/prep-svgs.js:115-126 | text without a `v` in either case never starts a match |
| SvgHelpers.LastIndexOf | scripts/prep-svgs.js:49-50 | the last index of the character, or -1 |
| SvgHelpers.FirstAttribute | scripts/prep-svgs.js:34-35 | the first position where the attribute occurs, or -1 |
| SvgHelpers.StrokeWidthCountsAsWidth | scripts/prep-svgs.js:35 | as written, `stroke-width="…"` counts as a width |
| SvgHelpers.StrokeWidthIsNotWidth | scripts/prep-svgs.js:35 | with whole attribute names, `stroke-width="…"` is not a width |
| SvgHelpers.GreedyAttributeValue | scripts/prep-svgs.js:49 | there is a value exactly when the substring test finds the attribute, and it runs up to the last `"` of the text |
| SvgHelpers.GreedyWidthSpansHeight | scripts/prep-svgs.js:49 | as written, the width read from `width="w" height="h"` is `w" height="h` |
| SvgHelpers.AttributeValue | scripts/prep-svgs.js:49-50 | there is a value exactly when the whole attribute is present, and it runs up to the next `"`, holding none |
| SvgHelpers.AttributeValueOf | scripts/prep-svgs.js:49-50 | the intended read of `name="v"` gives `v` |
| SvgHelpers.WidthOfSizeAttributes | scripts/prep-svgs.js:49-50 | the intended read of the width in `width="w" height="h"` is `w` |
| SvgHelpers.SizeFixFor | scripts/prep-svgs.js:33-56 | as written, with substring matches: width and height are added exactly when a `viewBox="…"` matches and no `width="…"` does. A viewBox is added exactly when a `width="…"` matches and no `viewBox="…"` does |
| SvgHelpers.FixSize | scripts/prep-svgs.js:33-78 | as written: nothing to fix leaves the content as is. Adding a size fails exactly when no viewBox values can be read. Adding a viewBox fails exactly when the greedy height read finds nothing; the script reports these as errors |
| SvgHelpers.IntendedSizeFix | scripts/prep-svgs.js:33-56 | as intended, with whole attribute names: width and height are added exactly when there is a viewBox and no width. A viewBox is added exactly when there is a width and no viewBox |
| SvgHelpers.IntendedFixSize | scripts/prep-svgs.js:33-78 | as intended: nothing to fix leaves the content as is. Adding a size fails exactly when no viewBox values can be read. Adding a viewBox fails exactly when no height attribute can be read |
| SvgHelpers.StrokeWidthFailsAsWritten | scripts/prep-svgs.js:34-50 | as written, an icon whose only size-like attribute is `stroke-width` is sent to the viewBox branch and fails there for want of a height |
| SvgHelpers.StrokeWidthLeftAlone | scripts/prep-svgs.js:34-50 | as intended, the same icon needs no size fix and is left unchanged |
| SvgHelpers.SizeAddedToTag | scripts/prep-svgs.js:37-42 | the `svg` opening tag receives `width="…" height="…"` from the viewBox in the intended size step |
| SvgHelpers.AttributeKept | scripts/prep-svgs.js:34-35 | an attribute stays found when text is appended |
| SvgHelpers.HasAttributeAt | scripts/prep-svgs.js:34-35 | an attribute at some position means the content has it |
| SvgHelpers.WidthWritten | scripts/prep-svgs.js:37-42 | written size attributes contain a width |
| SvgHelpers.SettledAfterSize | scripts/prep-svgs.js:33-56 | content with a whole viewBox attribute and written size needs no further intended fix |
| SvgHelpers.SizeSettles | scripts/prep-svgs.js:33-56 | in the intended size step, adding the size succeeds and a second pass would change nothing |
| SvgHelpers.ViewBoxAddedToTag | scripts/prep-svgs.js:43-55 | in the intended size step the `svg` opening tag receives `viewBox="0 0 w h"` built from the width and height read from the content |
| SvgHelpers.ViewBoxWritten | scripts/prep-svgs.js:51-55 | a written viewBox is a whole `viewBox` attribute |
| SvgHelpers.SettledAfterViewBox | scripts/prep-svgs.js:33-56 | content with a whole width attribute and a written viewBox needs no further intended fix |
| SvgHelpers.ViewBoxSettles | scripts/prep-svgs.js:33-56 | in the intended size step, adding the viewBox succeeds and a second pass would change nothing |
| Strings.TrimStartSpec | src/lib/actions/tooltip.ts:209-210 | `trimStart` keeps the longest suffix not starting with whitespace |
| Strings.TrimEndSpec | src/lib/actions/tooltip.ts:209-210 | `trimEnd` keeps the longest prefix not ending with whitespace |
| Strings.TrimNoOuterWhitespace | src/lib/actions/tooltip.ts:209-210 | a trimmed string neither starts nor ends with whitespace |
| Strings.TrimEmptyIffBlank | src/lib/actions/tooltip.ts:209-210 | trimming gives "" exactly for blank strings |
| Strings.TrimSlice | scripts/typography-importer.ts:97 | the trimmed string is a slice with only whitespace outside it |
| Strings.TrimTight | scripts/typography-importer.ts:97 | a string with no outer whitespace is its own trim |
| Strings.IndexOfFrom | scripts/typography-importer.ts:79 | the first occurrence at or after a position, or -1 |
| Strings.IncludesIff | scripts/typography-importer.ts:79 | `includes` holds exactly when the text occurs somewhere |
| Strings.ReplaceFirst | src/stories/utils/ColorGenerator/helpers.ts:31 | without the pattern nothing changes, and a leading pattern is replaced |
| Strings.Split | scripts/typography-importer.ts:77 | a split has at least one piece |
| Strings.JoinAppend | src/stories/utils/ColorGenerator/helpers.ts:11 | joining two lists puts one separator between their joins |
| Strings.SplitNoSeparator | scripts/typography-importer.ts:77 | no piece holds the separator |
| Strings.SplitCount | scripts/typography-importer.ts:77 | one more piece than separators |
| Strings.JoinSplit | scripts/typography-importer.ts:77 | joining the pieces with the separator gives back the string |
| Strings.SplitAfterPiece | scripts/typography-importer.ts:77 | a leading piece and separator split off first |
| Strings.SplitPiece | scripts/typography-importer.ts:77 | a string without the separator is one piece |
| Strings.SplitJoin | scripts/typography-importer.ts:77 | splitting a join of separator-free pieces gives back the pieces |
| Strings.UpperChar | scripts/typography-importer.ts:69 | ASCII lower-case letters become upper-case, others are kept |
| Strings.LowerChar | scripts/typography-importer.ts:69 | ASCII upper-case letters become lower-case, others are kept |
| Strings.Lower | scripts/typography-importer.ts:69 | each character is lower-cased in place |

## Left out

- DOM and browser APIs are inputs, not calls. This covers element rectangles, `closest`, `matches`, `classList`, `dataTransfer`, `MutationObserver`, `requestAnimationFrame`, `tick()` and style writes. Rectangles, ancestor chains and mutation records are parameters, and the attached/observing/class states are flags.
- The popover API is a parameter `popoverThrows`. `showPopover` either succeeds or throws into the code's `catch`. A deferred `hidePopover` is a pending flag fired by `FirePopoverHide`.
- Timers (`setTimeout` of 750, 300 and 200 ms) have no time. They are pending flags fired by `FireShowTimer` and `FireHideTimer`.
- The tooltip element id, built from `Date.now` and `Math.random`, is not modelled. `generateUniqueId` in src/lib/actions/utils.ts is not part of this model.
- Event listener registration and removal is one flag per listener group. Which DOM node listens is not tracked.
- The typography importer's file read, the Vite plugin hooks and `JSON.stringify` of the result are I/O. `ImportTypography` starts from the file's text.
- TypographyImporter.NumberValue: `Number(part)` is modelled for blank input (0) and decimal digit strings. Signs, decimals, exponents, hex literals and `Infinity` are not numbers in the model.
- TypographyImporter.ToTitleCase: case mapping is ASCII only. Non-ASCII letters keep their case. `\w` is the ASCII word class, as in JavaScript.
- Strings.Lower and Strings.UpperChar: ASCII only, as above.
- GroupStores.IndexOf and GroupStores.CheckboxGroup.IsSelected: both use Dafny equality. JavaScript's `indexOf` uses strict equality and `includes` uses SameValueZero, which differ only on `NaN`: `includes` finds a `NaN` that `indexOf` does not. The model has no `NaN`.
- `tryConvertToHex` and `downloadScss` need a canvas, `Blob` and `URL`, so they are left out.
- The font URLs are what the bundler resolves each `.woff2` import to. They are the parameter `asset`.
- prep-svgs.js: directory listing, file reads and writes, `svgo.optimize` and console logging are I/O. Only the error path is kept: an exception becomes `Err(TypeError)`.
- The `<defs>` and `<title>` removal, the attribute stripping and the `fill="currentColor"` insertion in prep-svgs.js:15-30 are left out.
- Reorderable.ReorderableHandler.AddDraggableAttribute: the `instanceof HTMLElement` test is not modelled; every item and handle is taken to be an HTML element. The handles inside each item are the input `handlesOf`, what `querySelectorAll(handleSelector)` returns.
- Reorderable.ReorderableHandler.OnDragStart: the set of draggable elements is an input, not derived from the handler's `draggable` flags, because it also holds elements that are draggable by default (links, images) or were set by other code.
- Reorderable.ReorderableHandler.GetItems: the index property lives on the element itself, so two handlers on nested containers overwrite each other's indices. The model keeps one index map per handler and does not capture that sharing.
- SvgHelpers.AppendAttributesToTags: takes the tag name literally. A name with regular-expression metacharacters is not modelled; the script only passes `svg`.
- Svelte stores' subscription and notification are not modelled. `Set` and `Update` change the value, and subscribers are outside the model.
- Coordinates are unbounded reals. Floating-point rounding is not modelled.

## Findings

| source | as written | input that shows it | evidently intended | confidence | as-written member | corrected member |
|---|---|---|---|---|---|---|
| scripts/prep-svgs.js:49-50 | `/width="([\s\S]*)"/` is greedy and captures up to the last `"` of the file | `<svg width="24" height="20">` gives the width `24" height="20`, so the added viewBox is malformed | the value of the width attribute, up to its closing quote | high (not executed) | SvgHelpers.GreedyWidthSpansHeight | SvgHelpers.WidthOfSizeAttributes |
| scripts/prep-svgs.js:34-35 | `/width="[\s\S]*"/` also matches the tail of any attribute name ending in `width` | `<svg stroke-width="2"></svg>` is taken to have a width and no viewBox; the greedy height read then finds nothing and the file fails. `<svg viewBox="0 0 24 24"><path stroke-width="2"/></svg>` likewise gets no width/height | test for a `width` attribute whose name stands alone | medium (not executed) | SvgHelpers.StrokeWidthFailsAsWritten | SvgHelpers.StrokeWidthLeftAlone |
