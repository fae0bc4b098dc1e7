/**
 * The reorderable action: a container whose matching children can be
 * reordered by drag and drop or by Ctrl+Shift+ArrowUp/ArrowDown.
 *
 * Elements are opaque ids. What the handler reads from the DOM is handed to
 * its methods as plain values: the elements `querySelectorAll(itemSelector)`
 * returns, the handles `querySelectorAll(handleSelector)` finds inside each
 * item, the element an event target's `closest(itemSelector)` resolves to,
 * ancestor chains, and bounding boxes. What the handler writes to the DOM is
 * kept as fields: the index property it stores on each element, the
 * `draggable` flags, the marker classes, the indicator's `hidden` flag and
 * whether listeners are attached. The callbacks `onreorder`, `ondragstarted`
 * and `ondragended` are represented by logs of the details they receive.
 */
module Reorderable {
  import opened Wrappers
  import opened Geometry

  /** A DOM element, by identity. */
  type ElementId = nat

  /**
   * An optional property of an options object: not there at all, there with
   * the value `undefined`, or there with a value. A spread copies the second
   * kind as it copies the third.
   */
  datatype Property<T> = Absent | Undefined | Given(value: T)

  /** The configuration. */
  datatype ReorderableOptions = ReorderableOptions(
    itemSelector: Property<string>,
    handleSelector: Property<string>,
    enableKeyboardReorder: Property<bool>)

  /** A property after `{ key: fallback, ...options }`. */
  function Spread<T>(fallback: T, p: Property<T>): Property<T> {
    if p.Absent? then Given(fallback) else p
  }

  /** `{ itemSelector: 'li', enableKeyboardReorder: true, ...options }`. */
  function WithDefaults(options: ReorderableOptions): (r: ReorderableOptions)
    ensures !r.itemSelector.Absent? && !r.enableKeyboardReorder.Absent?
    ensures r.handleSelector == options.handleSelector
    ensures r.itemSelector == (if options.itemSelector.Absent? then Given("li") else options.itemSelector)
    ensures KeyboardEnabled(r) <==> options.enableKeyboardReorder in {Absent, Given(true)}
    ensures !options.enableKeyboardReorder.Absent? ==> r.enableKeyboardReorder == options.enableKeyboardReorder
  {
    ReorderableOptions(Spread("li", options.itemSelector), options.handleSelector,
                       Spread(true, options.enableKeyboardReorder))
  }

  /** `!!options.handleSelector`: given and not the empty string. */
  predicate HasHandles(options: ReorderableOptions) {
    options.handleSelector.Given? && options.handleSelector.value != ""
  }

  /** `!!options.enableKeyboardReorder`. */
  predicate KeyboardEnabled(options: ReorderableOptions) {
    options.enableKeyboardReorder == Given(true)
  }

  /** Where to drop relative to the target: -1 before it, 0 after it. */
  datatype DropTargetInfo = DropTargetInfo(targetElement: ElementId, targetIndex: int, position: int)

  /** The detail handed to `onreorder`. */
  datatype ReorderEventDetail = ReorderEventDetail(
    draggedElement: ElementId, targetElement: ElementId, position: int, draggedIndex: int, targetIndex: int)

  /** The keyboard event fields the action reads. */
  datatype KeyEvent = KeyEvent(code: string, ctrlKey: bool, shiftKey: bool, altKey: bool, metaKey: bool)

  /** One `MutationRecord`, by what the observer callback reads of it. */
  datatype MutationRecord = MutationRecord(
    addedCount: nat,
    removedCount: nat,
    /** The indicator is among the removed nodes. */
    removesIndicator: bool,
    /** For each added element node, itself when it matches and then its matching descendants. */
    addedItems: seq<ElementId>)

  // ---------------------------------------------------------------------------
  // Pure decisions
  // ---------------------------------------------------------------------------

  /** `isReorderKeyboardEvent`: -1 for moving up, 1 for moving down, 0 for any other key event. */
  function IsReorderKeyboardEvent(event: KeyEvent): (r: int)
    ensures r == -1 <==>
      event.code == "ArrowUp" && event.ctrlKey && event.shiftKey && !event.altKey && !event.metaKey
    ensures r == 1 <==>
      event.code == "ArrowDown" && event.ctrlKey && event.shiftKey && !event.altKey && !event.metaKey
    ensures r == -1 || r == 0 || r == 1
  {
    if event.code != "ArrowUp" && event.code != "ArrowDown" then 0
    else if !event.ctrlKey || !event.shiftKey || event.altKey || event.metaKey then 0
    else if event.code == "ArrowUp" then -1 else 1
  }

  /** `getItemIndex`: the index property stored on the element, or -1 when it has none. */
  function ItemIndex(indexOf: map<ElementId, nat>, e: ElementId): (r: int)
    ensures r >= -1
    ensures r == -1 <==> e !in indexOf
  {
    if e in indexOf then indexOf[e] else -1
  }

  /** The drop side: before the target (-1) when the pointer is above its vertical middle, else after (0). */
  function DropPosition(clientY: real, rect: Rect): (r: int)
    ensures r == -1 <==> clientY < rect.Top() + rect.height * 0.5
    ensures r == 0 <==> clientY >= rect.Top() + rect.height * 0.5
  {
    var threshold := rect.height * 0.5;
    if clientY < rect.Top() + threshold then -1 else 0
  }

  /**
   * `getDropTargetInfo`, given the item the event target is in (its
   * `closest(itemSelector)`) and that item's bounding box.
   */
  function DropTarget(indexOf: map<ElementId, nat>, targetItem: Option<ElementId>, clientY: real, rect: Rect)
    : (r: Option<DropTargetInfo>)
    ensures r.Some? <==> targetItem.Some? && targetItem.value in indexOf
    ensures r.Some? ==>
      && r.value.targetElement == targetItem.value
      && r.value.targetIndex == indexOf[targetItem.value]
      && (r.value.position == -1 <==> clientY < rect.Top() + rect.height * 0.5)
      && (r.value.position == -1 || r.value.position == 0)
  {
    match targetItem
    case None => None
    case Some(item) =>
      var targetIndex := ItemIndex(indexOf, item);
      if targetIndex == -1 then None
      else Some(DropTargetInfo(item, targetIndex, DropPosition(clientY, rect)))
  }

  /**
   * What `onDrop` hands to `onreorder`, if anything: nothing without a dragged
   * element or a target, for a drop onto the dragged element itself, or for a
   * drop that would leave it where it is.
   */
  function DropReorder(indexOf: map<ElementId, nat>, dragged: Option<ElementId>, info: Option<DropTargetInfo>)
    : (r: Option<ReorderEventDetail>)
    ensures r.Some? ==>
      && dragged.Some? && info.Some?
      && r.value.draggedElement == dragged.value && r.value.targetElement == info.value.targetElement
      && r.value.draggedElement != r.value.targetElement
  {
    if dragged.None? || info.None? then None
    else if dragged.value == info.value.targetElement then None
    else
      var draggedIndex := ItemIndex(indexOf, dragged.value);
      var targetIndex := info.value.targetIndex;
      var position := info.value.position;
      if (position == 0 && targetIndex == draggedIndex - 1) || (position == -1 && targetIndex == draggedIndex + 1)
      then None
      else Some(ReorderEventDetail(dragged.value, info.value.targetElement, position, draggedIndex, targetIndex))
  }

  /**
   * A drop reorders exactly when there is a dragged element and a target, the
   * target is another element, and the drop is not right after the dragged
   * element's predecessor or right before its successor; the detail then
   * carries both elements, the drop side and both indices.
   */
  lemma DropReorderIff(indexOf: map<ElementId, nat>, dragged: Option<ElementId>, info: Option<DropTargetInfo>)
    ensures var r := DropReorder(indexOf, dragged, info);
      r.Some? <==>
        && dragged.Some? && info.Some?
        && dragged.value != info.value.targetElement
        && var d := ItemIndex(indexOf, dragged.value);
        && !(info.value.position == 0 && info.value.targetIndex == d - 1)
        && !(info.value.position == -1 && info.value.targetIndex == d + 1)
    ensures var r := DropReorder(indexOf, dragged, info);
      r.Some? ==> r.value == ReorderEventDetail(dragged.value, info.value.targetElement, info.value.position,
                                               ItemIndex(indexOf, dragged.value), info.value.targetIndex)
  {
  }

  /**
   * `evaluateKeyDownEvent`, given the item the focused element is in: nothing
   * for another key, an untracked item, moving up from the first index, moving
   * down from the last, or a neighbour index with no item; otherwise a move to
   * the neighbour, before it when moving up and after it when moving down.
   */
  function KeyboardReorder(items: seq<ElementId>, indexOf: map<ElementId, nat>, event: KeyEvent,
                           fromEl: Option<ElementId>): (r: Option<ReorderEventDetail>)
    ensures IsReorderKeyboardEvent(event) == 0 || fromEl.None? ==> r.None?
    ensures fromEl.Some? && fromEl.value !in indexOf ==> r.None?
    ensures fromEl.Some? && ItemIndex(indexOf, fromEl.value) == 0 && IsReorderKeyboardEvent(event) == -1 ==> r.None?
    ensures fromEl.Some? && ItemIndex(indexOf, fromEl.value) == |items| - 1 && IsReorderKeyboardEvent(event) == 1 ==>
      r.None?
    ensures r.Some? ==>
      var direction := IsReorderKeyboardEvent(event);
      var fromIndex := ItemIndex(indexOf, fromEl.value);
      && direction != 0 && fromEl.Some? && fromIndex >= 0
      && 0 <= fromIndex + direction < |items|
      && r.value == ReorderEventDetail(fromEl.value, items[fromIndex + direction],
                                       if direction < 0 then direction else 0, fromIndex, fromIndex + direction)
  {
    var direction := IsReorderKeyboardEvent(event);
    if direction == 0 || fromEl.None? then None
    else
      var fromIndex := ItemIndex(indexOf, fromEl.value);
      if fromIndex == -1 then None
      else if (fromIndex == 0 && direction == -1) || (fromIndex == |items| - 1 && direction == 1) then None
      else if !(0 <= fromIndex + direction < |items|) then None
      else
        Some(ReorderEventDetail(fromEl.value, items[fromIndex + direction],
                                if direction < 0 then direction else 0, fromIndex, fromIndex + direction))
  }

  /** For a tracked item the keyboard move is refused only at the boundaries. */
  lemma KeyboardReorderTracked(items: seq<ElementId>, indexOf: map<ElementId, nat>, event: KeyEvent, k: nat)
    requires k < |items| && items[k] in indexOf && indexOf[items[k]] == k
    requires IsReorderKeyboardEvent(event) != 0
    ensures var direction := IsReorderKeyboardEvent(event);
      KeyboardReorder(items, indexOf, event, Some(items[k])).None? <==>
        (k == 0 && direction == -1) || (k == |items| - 1 && direction == 1)
  {
  }

  /**
   * The keydown listener after `update`: it is added or removed only when the
   * truthiness of the new, un-defaulted option differs from that of the stored
   * one.
   */
  function KeydownAfterUpdate(stored: ReorderableOptions, attached: bool, newOptions: ReorderableOptions): (r: bool)
    ensures r ==> KeyboardEnabled(WithDefaults(newOptions)) || attached
  {
    var hadKeyboard := KeyboardEnabled(stored);
    var hasKeyboard := KeyboardEnabled(newOptions);
    if hadKeyboard != hasKeyboard then hasKeyboard else attached
  }

  /**
   * The listener follows the stored option only as long as updates spell the
   * option out: an update without it detaches the listener while the stored
   * option says enabled, and a later update that enables it explicitly does not
   * attach it again.
   */
  lemma KeydownUpdateWithoutOption()
    ensures var defaults := WithDefaults(ReorderableOptions(Absent, Absent, Absent));
      var enable := ReorderableOptions(Absent, Absent, Given(true));
      && KeyboardEnabled(defaults)
      && !KeydownAfterUpdate(defaults, true, ReorderableOptions(Absent, Absent, Absent))
      && !KeydownAfterUpdate(defaults, false, enable)
  {
  }

  /** Each element of `items` carries its own position as index property. */
  ghost predicate Indexed(items: seq<ElementId>, indexOf: map<ElementId, nat>) {
    forall k :: 0 <= k < |items| ==> items[k] in indexOf && indexOf[items[k]] == k
  }

  /** No element twice, as `querySelectorAll` guarantees. */
  predicate Distinct(s: seq<ElementId>) {
    forall j, k :: 0 <= j < k < |s| ==> s[j] != s[k]
  }

  /** `closest(itemSelector)` along a chain of an element and its ancestors. */
  function Closest(chain: seq<ElementId>, matching: set<ElementId>): (r: Option<ElementId>)
    ensures r.Some? ==> r.value in chain && r.value in matching
    ensures r.None? ==> forall k :: 0 <= k < |chain| ==> chain[k] !in matching
  {
    if chain == [] then None
    else if chain[0] in matching then Some(chain[0])
    else Closest(chain[1..], matching)
  }

  /**
   * The item a drag starts from: below the container, the first draggable
   * element on the chain from the event target upwards, and then the closest
   * item around it.
   */
  function DraggedFrom(chain: seq<ElementId>, container: ElementId, draggable: set<ElementId>,
                       matching: set<ElementId>): (r: Option<ElementId>)
    ensures r.Some? ==> r.value in matching && r.value in chain
  {
    if chain == [] || chain[0] == container then None
    else if chain[0] in draggable then Closest(chain, matching)
    else DraggedFrom(chain[1..], container, draggable, matching)
  }

  /**
   * A drag starts from a matching element that encloses (or is) a draggable
   * element met below the container; with no draggable element there, it does
   * not start.
   */
  lemma {:induction false} DraggedFromFound(chain: seq<ElementId>, container: ElementId, draggable: set<ElementId>,
                                            matching: set<ElementId>)
    ensures var r := DraggedFrom(chain, container, draggable, matching);
      && (r.Some? ==>
            && r.value in matching
            && exists i :: 0 <= i < |chain| && chain[i] in draggable && container !in chain[..i + 1]
                           && r.value in chain[i..])
      && ((forall i :: 0 <= i < |chain| && container !in chain[..i + 1] ==> chain[i] !in draggable) ==> r.None?)
  {
    if chain != [] && chain[0] != container {
      if chain[0] in draggable {
        assert chain[..1] == [chain[0]];
        assert chain[0..] == chain;
      } else {
        DraggedFromFound(chain[1..], container, draggable, matching);
        var r := DraggedFrom(chain, container, draggable, matching);
        if r.Some? {
          var i :| 0 <= i < |chain[1..]| && chain[1..][i] in draggable && container !in chain[1..][..i + 1]
                   && r.value in chain[1..][i..];
          assert chain[..i + 2] == [chain[0]] + chain[1..][..i + 1];
          assert chain[i + 1..] == chain[1..][i..];
        }
        if forall i :: 0 <= i < |chain| && container !in chain[..i + 1] ==> chain[i] !in draggable {
          forall i | 0 <= i < |chain[1..]| && container !in chain[1..][..i + 1]
            ensures chain[1..][i] !in draggable
          {
            assert chain[..i + 2] == [chain[0]] + chain[1..][..i + 1];
          }
        }
      }
    }
  }

  // ---------------------------------------------------------------------------
  // Draggable flags
  // ---------------------------------------------------------------------------

  /**
   * What `item.querySelectorAll(handleSelector)` returns for each item; an
   * item without an entry has no handles.
   */
  type HandleMap = map<ElementId, seq<ElementId>>

  /** `e` is a handle inside one of `elements`. */
  ghost predicate IsHandleOf(e: ElementId, elements: seq<ElementId>, handlesOf: HandleMap) {
    exists x :: x in elements && x in handlesOf && e in handlesOf[x]
  }

  /** The `draggable` flag of `e` is as it was. */
  ghost predicate FlagKept(before: map<ElementId, bool>, after: map<ElementId, bool>, e: ElementId) {
    (e in after <==> e in before) && (e in after ==> after[e] == before[e])
  }

  /**
   * What `addDraggableAttribute` does to the `draggable` flags of `elements`.
   * Without handles each element becomes draggable. With handles each element
   * becomes not draggable and each of its handles draggable; an element that
   * is both an item and a handle of an item ends as the last write leaves it,
   * and is not constrained here. Every other flag is kept.
   */
  ghost predicate DraggableMarked(before: map<ElementId, bool>, after: map<ElementId, bool>,
                                  elements: seq<ElementId>, handlesOf: HandleMap, hasHandles: bool)
  {
    && (forall e :: e in elements && !(hasHandles && IsHandleOf(e, elements, handlesOf)) ==>
          e in after && after[e] == !hasHandles)
    && (hasHandles ==> forall e :: IsHandleOf(e, elements, handlesOf) && e !in elements ==> e in after && after[e])
    && (forall e :: e !in elements && !(hasHandles && IsHandleOf(e, elements, handlesOf)) ==>
          FlagKept(before, after, e))
  }

  /** Marking `a` and then `b` is marking `a + b`. */
  lemma DraggableMarkedCompose(d0: map<ElementId, bool>, d1: map<ElementId, bool>, d2: map<ElementId, bool>,
                               a: seq<ElementId>, b: seq<ElementId>, handlesOf: HandleMap, hasHandles: bool)
    requires DraggableMarked(d0, d1, a, handlesOf, hasHandles)
    requires DraggableMarked(d1, d2, b, handlesOf, hasHandles)
    ensures DraggableMarked(d0, d2, a + b, handlesOf, hasHandles)
  {
    HandlesOfConcat(a, b, handlesOf);
    forall e | e in a + b && !(hasHandles && IsHandleOf(e, a + b, handlesOf))
      ensures e in d2 && d2[e] == !hasHandles
    {
      if e !in b {
        assert e in a && FlagKept(d1, d2, e);
      }
    }
    forall e | hasHandles && IsHandleOf(e, a + b, handlesOf) && e !in a + b
      ensures e in d2 && d2[e]
    {
      if !IsHandleOf(e, b, handlesOf) {
        assert IsHandleOf(e, a, handlesOf) && FlagKept(d1, d2, e);
      }
    }
    forall e | e !in a + b && !(hasHandles && IsHandleOf(e, a + b, handlesOf))
      ensures FlagKept(d0, d2, e)
    {
      assert FlagKept(d0, d1, e) && FlagKept(d1, d2, e);
    }
  }

  /** The handles inside `a + b` are those inside `a` and those inside `b`. */
  lemma HandlesOfConcat(a: seq<ElementId>, b: seq<ElementId>, handlesOf: HandleMap)
    ensures forall e :: IsHandleOf(e, a + b, handlesOf) <==> IsHandleOf(e, a, handlesOf) || IsHandleOf(e, b, handlesOf)
  {
    forall e
      ensures IsHandleOf(e, a + b, handlesOf) <==> IsHandleOf(e, a, handlesOf) || IsHandleOf(e, b, handlesOf)
    {
      if IsHandleOf(e, a + b, handlesOf) {
        var x :| x in a + b && x in handlesOf && e in handlesOf[x];
        assert x in a || x in b;
      }
      if IsHandleOf(e, a, handlesOf) {
        var x :| x in a && x in handlesOf && e in handlesOf[x];
        assert x in a + b;
      }
      if IsHandleOf(e, b, handlesOf) {
        var x :| x in b && x in handlesOf && e in handlesOf[x];
        assert x in a + b;
      }
    }
  }

  /** The added items of a batch of mutation records, in order. */
  function AddedItems(mutations: seq<MutationRecord>): (r: seq<ElementId>)
    ensures forall e :: e in r <==> exists m :: m in mutations && e in m.addedItems
  {
    if mutations == [] then []
    else
      var last := mutations[|mutations| - 1];
      assert mutations == mutations[..|mutations| - 1] + [last];
      AddedItems(mutations[..|mutations| - 1]) + last.addedItems
  }

  // ---------------------------------------------------------------------------
  // The handler
  // ---------------------------------------------------------------------------

  /** `ReorderableHandler`: the state of the action on one container. */
  class ReorderableHandler {
    /** The container element. */
    const element: ElementId
    var options: ReorderableOptions
    var draggedElement: Option<ElementId>
    var dropTargetInfo: Option<DropTargetInfo>
    var items: seq<ElementId>
    /** The index property stored on elements; entries on elements no longer tracked stay behind. */
    var indexOf: map<ElementId, nat>
    /** The `draggable` property this handler has set on items and handles. */
    var draggable: map<ElementId, bool>
    /** The indicator is in the DOM, and its `hidden` flag. */
    var indicatorAttached: bool
    var indicatorHidden: bool
    /** The marker classes `tint--reorderable-container` and `tint--handle` on the container. */
    var containerClass: bool
    var handleClass: bool
    /** The drag listeners, the keydown listener and the mutation observer are attached. */
    var listenersAttached: bool
    var keydownAttached: bool
    var observing: bool
    /** What `onreorder`, `ondragstarted` and `ondragended` have received, oldest first. */
    var reorderEvents: seq<ReorderEventDetail>
    var dragStartedEvents: seq<ElementId>
    var dragEndedEvents: seq<ElementId>

    ghost predicate Valid()
      reads this
    {
      && Indexed(items, indexOf)
      && (keydownAttached ==> KeyboardEnabled(options))
    }

    /** `getItemIndex`. */
    function GetItemIndex(e: ElementId): (r: int)
      reads this
      ensures Valid() ==> forall k :: 0 <= k < |items| && items[k] == e ==> r == k
      ensures r == -1 <==> e !in indexOf
    {
      ItemIndex(indexOf, e)
    }

    /** `getDropTargetInfo`. */
    function GetDropTargetInfo(targetItem: Option<ElementId>, clientY: real, rect: Rect): (r: Option<DropTargetInfo>)
      reads this
      ensures r.Some? <==> targetItem.Some? && GetItemIndex(targetItem.value) != -1
      ensures r.Some? ==> r.value.targetElement == targetItem.value && r.value.targetIndex == GetItemIndex(targetItem.value)
    {
      DropTarget(indexOf, targetItem, clientY, rect)
    }

    /**
     * The constructor and `setup`: marker classes, a hidden indicator, the
     * items indexed and made draggable, all listeners attached (keydown only
     * when the option is on) and the observer started.
     */
    constructor (element: ElementId, options: ReorderableOptions, matching: seq<ElementId>, handlesOf: HandleMap)
      requires Distinct(matching)
      ensures Valid()
      ensures this.element == element && this.options == WithDefaults(options)
      ensures items == matching && forall e :: e in indexOf ==> e in matching
      ensures DraggableMarked(map[], draggable, matching, handlesOf, HasHandles(options))
      ensures draggedElement.None? && dropTargetInfo.None?
      ensures indicatorAttached && indicatorHidden
      ensures containerClass && handleClass == HasHandles(options)
      ensures listenersAttached && observing && keydownAttached == KeyboardEnabled(WithDefaults(options))
      ensures reorderEvents == [] && dragStartedEvents == [] && dragEndedEvents == []
    {
      this.element := element;
      this.options := WithDefaults(options);
      draggedElement := None;
      dropTargetInfo := None;
      reorderEvents := [];
      dragStartedEvents := [];
      dragEndedEvents := [];
      // setup: the marker classes, a fresh hidden indicator
      containerClass := true;
      handleClass := HasHandles(options);
      indicatorAttached := true;
      indicatorHidden := true;
      // the listeners and the observer
      listenersAttached := true;
      keydownAttached := KeyboardEnabled(WithDefaults(options));
      observing := true;
      items := [];
      indexOf := map[];
      draggable := map[];
      new;
      // the items, indexed and made draggable
      GetItems(matching);
      AddDraggableAttribute(items, handlesOf);
    }

    /** `potentiallyCreateIndicator`: a detached indicator is replaced by a fresh, hidden one. */
    method PotentiallyCreateIndicator()
      modifies this`indicatorAttached, this`indicatorHidden
      ensures indicatorAttached
      ensures indicatorHidden == (if old(indicatorAttached) then old(indicatorHidden) else true)
    {
      if !indicatorAttached {
        indicatorAttached := true;
        indicatorHidden := true;
      }
    }

    /** Another script takes the indicator out of the DOM. */
    method DetachIndicator()
      modifies this`indicatorAttached
      ensures !indicatorAttached
    {
      indicatorAttached := false;
    }

    /**
     * `getItems`: the matching elements become the items, and each gets its
     * position as index property; elements that are no longer items keep the
     * property they had.
     */
    method GetItems(matching: seq<ElementId>)
      requires Distinct(matching)
      modifies this`items, this`indexOf
      ensures items == matching
      ensures Indexed(items, indexOf)
      ensures forall e :: e !in matching ==> (e in indexOf <==> e in old(indexOf))
      ensures forall e :: e !in matching && e in indexOf ==> indexOf[e] == old(indexOf)[e]
    {
      items := matching;
      var i := 0;
      while i < |matching|
        invariant 0 <= i <= |matching| && items == matching
        invariant forall k :: 0 <= k < i ==> matching[k] in indexOf && indexOf[matching[k]] == k
        invariant forall e :: e !in matching[..i] ==> (e in indexOf <==> e in old(indexOf))
        invariant forall e :: e !in matching[..i] && e in indexOf ==> indexOf[e] == old(indexOf)[e]
      {
        assert matching[..i + 1] == matching[..i] + [matching[i]];
        indexOf := indexOf[matching[i] := i];
        i := i + 1;
      }
      assert matching[..i] == matching;
    }

    /**
     * `addDraggableAttribute`: without handles the items become draggable,
     * with handles they become not draggable (their handles become draggable).
     */
    method AddDraggableAttribute(elements: seq<ElementId>, handlesOf: HandleMap)
      modifies this`draggable
      ensures DraggableMarked(old(draggable), draggable, elements, handlesOf, HasHandles(options))
    {
      for i := 0 to |elements|
        invariant DraggableMarked(old(draggable), draggable, elements[..i], handlesOf, HasHandles(options))
      {
        ghost var before := draggable;
        MarkItem(elements[i], handlesOf);
        DraggableMarkedCompose(old(draggable), before, draggable, elements[..i], [elements[i]],
                               handlesOf, HasHandles(options));
        assert elements[..i + 1] == elements[..i] + [elements[i]];
      }
      assert elements[..|elements|] == elements;
    }

    /** The body of the loop in `addDraggableAttribute`, for one item. */
    method MarkItem(item: ElementId, handlesOf: HandleMap)
      modifies this`draggable
      ensures DraggableMarked(old(draggable), draggable, [item], handlesOf, HasHandles(options))
    {
      if HasHandles(options) {
        draggable := draggable[item := false];
        var handles := if item in handlesOf then handlesOf[item] else [];
        for j := 0 to |handles|
          invariant item in draggable && (item !in handles[..j] ==> !draggable[item])
          invariant forall h :: h in handles[..j] ==> h in draggable && draggable[h]
          invariant forall e :: e != item && e !in handles[..j] ==> FlagKept(old(draggable), draggable, e)
        {
          assert handles[..j + 1] == handles[..j] + [handles[j]];
          draggable := draggable[handles[j] := true];
        }
        assert handles[..|handles|] == handles;
        assert forall e :: IsHandleOf(e, [item], handlesOf) <==> e in handles;
      } else {
        draggable := draggable[item := true];
      }
    }

    /**
     * `onMutation`: added items get their draggable flag, a missing indicator
     * is recreated, and when any node was added or removed the items are read
     * again (`matching` is what `querySelectorAll` returns afterwards).
     */
    method OnMutation(mutations: seq<MutationRecord>, matching: seq<ElementId>, handlesOf: HandleMap)
      requires Valid() && observing && Distinct(matching)
      modifies this
      ensures Valid()
      ensures var changed := exists m :: m in mutations && (m.addedCount > 0 || m.removedCount > 0);
        && items == (if changed then matching else old(items))
        && (changed ==> Indexed(matching, indexOf))
        && (!changed ==> indexOf == old(indexOf))
      ensures DraggableMarked(old(draggable), draggable, AddedItems(mutations), handlesOf, HasHandles(options))
      ensures indicatorAttached
      ensures indicatorHidden == (if old(indicatorAttached) then old(indicatorHidden) else true)
      ensures options == old(options) && keydownAttached == old(keydownAttached)
      ensures draggedElement == old(draggedElement) && dropTargetInfo == old(dropTargetInfo)
      ensures reorderEvents == old(reorderEvents) && dragStartedEvents == old(dragStartedEvents)
      ensures dragEndedEvents == old(dragEndedEvents)
      ensures listenersAttached == old(listenersAttached) && observing
      ensures containerClass == old(containerClass) && handleClass == old(handleClass)
      ensures forall e :: e !in items && e in indexOf ==> e in old(indexOf) && indexOf[e] == old(indexOf)[e]
    {
      var needsUpdate, indicatorRemoved := MarkAdded(mutations, handlesOf);
      if indicatorRemoved || !indicatorAttached {
        PotentiallyCreateIndicator();
      }
      if needsUpdate {
        GetItems(matching);
      }
    }

    /**
     * The loop of `onMutation` over the records: whether any node was added or
     * removed, whether the indicator was among the removed nodes, and the
     * draggable flag set on every added item.
     */
    method MarkAdded(mutations: seq<MutationRecord>, handlesOf: HandleMap)
      returns (needsUpdate: bool, indicatorRemoved: bool)
      modifies this`draggable
      ensures needsUpdate <==> exists m :: m in mutations && (m.addedCount > 0 || m.removedCount > 0)
      ensures indicatorRemoved <==> exists m :: m in mutations && m.removesIndicator
      ensures DraggableMarked(old(draggable), draggable, AddedItems(mutations), handlesOf, HasHandles(options))
    {
      needsUpdate := false;
      indicatorRemoved := false;
      for i := 0 to |mutations|
        invariant needsUpdate <==> exists m :: m in mutations[..i] && (m.addedCount > 0 || m.removedCount > 0)
        invariant indicatorRemoved <==> exists m :: m in mutations[..i] && m.removesIndicator
        invariant DraggableMarked(old(draggable), draggable, AddedItems(mutations[..i]), handlesOf, HasHandles(options))
      {
        assert mutations[..i + 1] == mutations[..i] + [mutations[i]];
        assert mutations[..i + 1][..i] == mutations[..i];
        var mutation := mutations[i];
        if mutation.addedCount > 0 || mutation.removedCount > 0 {
          needsUpdate := true;
        }
        if mutation.removesIndicator {
          indicatorRemoved := true;
        }
        ghost var before := draggable;
        AddDraggableAttribute(mutation.addedItems, handlesOf);
        DraggableMarkedCompose(old(draggable), before, draggable, AddedItems(mutations[..i]), mutation.addedItems,
                               handlesOf, HasHandles(options));
      }
      assert mutations[..|mutations|] == mutations;
    }

    /**
     * `onDragStart`, given the chain from the event target up to the document
     * root and the elements whose `draggable` is true: a drag starts from a
     * tracked item enclosing a draggable element below the container;
     * `ondragstarted` receives it and it becomes the dragged element.
     */
    method OnDragStart(chain: seq<ElementId>, draggableElements: set<ElementId>, matching: set<ElementId>)
      requires Valid() && listenersAttached
      modifies this`draggedElement, this`dragStartedEvents
      ensures Valid()
      ensures var found := DraggedFrom(chain, element, draggableElements, matching);
        if found.Some? && found.value in indexOf then
          draggedElement == found && dragStartedEvents == old(dragStartedEvents) + [found.value]
        else
          draggedElement == old(draggedElement) && dragStartedEvents == old(dragStartedEvents)
    {
      var draggedFrom := FindDraggedElement(chain, draggableElements, matching);
      if draggedFrom.None? {
        return;
      }
      var dragIndex := GetItemIndex(draggedFrom.value);
      if dragIndex == -1 {
        return;
      }
      dragStartedEvents := dragStartedEvents + [draggedFrom.value];
      draggedElement := draggedFrom;
    }

    /** The walk up the parent chain in `onDragStart`. */
    method FindDraggedElement(chain: seq<ElementId>, draggableElements: set<ElementId>, matching: set<ElementId>)
      returns (draggedFrom: Option<ElementId>)
      ensures draggedFrom == DraggedFrom(chain, element, draggableElements, matching)
    {
      var i := 0;
      draggedFrom := None;
      while i < |chain| && chain[i] != element
        invariant 0 <= i <= |chain|
        invariant DraggedFrom(chain, element, draggableElements, matching) ==
                  DraggedFrom(chain[i..], element, draggableElements, matching)
      {
        if chain[i] in draggableElements {
          draggedFrom := Closest(chain[i..], matching);
          return;
        }
        assert chain[i..][1..] == chain[i + 1..];
        i := i + 1;
      }
    }

    /**
     * `onDragOver`: the drop target is recomputed and the indicator (recreated
     * if it had left the DOM) is shown only over a target whose index has an
     * item; the result says whether the drop is allowed (`preventDefault`).
     */
    method OnDragOver(targetItem: Option<ElementId>, clientY: real, rect: Rect) returns (allowDrop: bool)
      requires Valid() && listenersAttached
      modifies this`dropTargetInfo, this`indicatorAttached, this`indicatorHidden
      ensures Valid()
      ensures dropTargetInfo == DropTarget(indexOf, targetItem, clientY, rect)
      ensures allowDrop <==> dropTargetInfo.Some?
      ensures indicatorAttached
      ensures !indicatorHidden <==> dropTargetInfo.Some? && 0 <= dropTargetInfo.value.targetIndex < |items|
    {
      dropTargetInfo := GetDropTargetInfo(targetItem, clientY, rect);
      PotentiallyCreateIndicator();
      if dropTargetInfo.None? {
        indicatorHidden := true;
        return false;
      }
      var targetIndex := dropTargetInfo.value.targetIndex;
      if !(0 <= targetIndex < |items|) {
        indicatorHidden := true;
        return true;
      }
      indicatorHidden := false;
      return true;
    }

    /**
     * `onDragLeave`, given whether the event target is an item and the chain
     * from the related target upwards: the indicator is hidden only when the
     * pointer has left the container.
     */
    method OnDragLeave(targetMatches: bool, relatedChain: seq<ElementId>)
      requires Valid() && listenersAttached
      modifies this`indicatorHidden
      ensures indicatorHidden == (old(indicatorHidden) || (targetMatches && element !in relatedChain))
    {
      if !targetMatches {
        return;
      }
      var i := 0;
      while i < |relatedChain| && relatedChain[i] != element
        invariant 0 <= i <= |relatedChain|
        invariant element !in relatedChain[..i]
      {
        assert relatedChain[..i + 1] == relatedChain[..i] + [relatedChain[i]];
        i := i + 1;
      }
      assert i == |relatedChain| ==> relatedChain[..i] == relatedChain;
      var inside := i < |relatedChain|;
      if !inside {
        indicatorHidden := true;
      }
    }

    /**
     * `onDrop`: the drop target is recomputed; without a dragged element or a
     * target nothing else happens. Otherwise `onreorder` receives the detail
     * `DropReorder` gives, if any, and the drag ends.
     */
    method OnDrop(targetItem: Option<ElementId>, clientY: real, rect: Rect)
      requires Valid() && listenersAttached
      modifies this`dropTargetInfo, this`reorderEvents, this`dragEndedEvents, this`indicatorHidden,
               this`draggedElement
      ensures Valid()
      ensures dropTargetInfo == DropTarget(indexOf, targetItem, clientY, rect)
      ensures var r := DropReorder(indexOf, old(draggedElement), dropTargetInfo);
        reorderEvents == old(reorderEvents) + (if r.Some? then [r.value] else [])
      ensures old(draggedElement).Some? && dropTargetInfo.Some? ==>
        && draggedElement.None? && indicatorHidden
        && dragEndedEvents == old(dragEndedEvents) + [old(draggedElement).value]
      ensures old(draggedElement).None? || dropTargetInfo.None? ==>
        && draggedElement == old(draggedElement) && indicatorHidden == old(indicatorHidden)
        && dragEndedEvents == old(dragEndedEvents)
    {
      dropTargetInfo := GetDropTargetInfo(targetItem, clientY, rect);
      if draggedElement.None? || dropTargetInfo.None? {
        return;
      }
      if draggedElement.value == dropTargetInfo.value.targetElement {
        OnDragEnd();
        return;
      }
      var draggedIndex := GetItemIndex(draggedElement.value);
      var targetIndex := dropTargetInfo.value.targetIndex;
      var position := dropTargetInfo.value.position;
      if (position == 0 && targetIndex == draggedIndex - 1) || (position == -1 && targetIndex == draggedIndex + 1) {
        OnDragEnd();
        return;
      }
      reorderEvents := reorderEvents +
        [ReorderEventDetail(draggedElement.value, dropTargetInfo.value.targetElement, position, draggedIndex, targetIndex)];
      OnDragEnd();
    }

    /**
     * `onDragEnd`: a drag in progress ends; `ondragended` receives the dragged
     * element, the indicator is hidden and the dragged element cleared. With no
     * drag in progress nothing happens, so a second call is a no-op.
     */
    method OnDragEnd()
      modifies this`dragEndedEvents, this`indicatorHidden, this`draggedElement
      ensures draggedElement.None?
      ensures old(draggedElement).None? ==>
        dragEndedEvents == old(dragEndedEvents) && indicatorHidden == old(indicatorHidden)
      ensures old(draggedElement).Some? ==>
        dragEndedEvents == old(dragEndedEvents) + [old(draggedElement).value] && indicatorHidden
    {
      if draggedElement.None? {
        return;
      }
      dragEndedEvents := dragEndedEvents + [draggedElement.value];
      indicatorHidden := true;
      draggedElement := None;
    }

    /**
     * `onKeyDown`, given the item the focused element is in: a recognised move
     * is handed to `onreorder`. (Focus restoration on the next frame is not
     * part of this model.)
     */
    method OnKeyDown(event: KeyEvent, fromEl: Option<ElementId>) returns (handled: bool)
      requires Valid() && keydownAttached
      modifies this`reorderEvents
      ensures var r := KeyboardReorder(items, indexOf, event, fromEl);
        && handled == r.Some?
        && reorderEvents == old(reorderEvents) + (if r.Some? then [r.value] else [])
    {
      var reorderInfo := KeyboardReorder(items, indexOf, event, fromEl);
      if reorderInfo.None? {
        return false;
      }
      reorderEvents := reorderEvents + [reorderInfo.value];
      return true;
    }

    /**
     * `update`: the defaulted options replace the old ones, the handle class
     * and the keydown listener follow the change in the raw new options, and
     * the items are indexed and made draggable again.
     */
    method Update(newOptions: ReorderableOptions, matching: seq<ElementId>, handlesOf: HandleMap)
      requires Valid() && Distinct(matching)
      modifies this
      ensures Valid()
      ensures options == WithDefaults(newOptions)
      ensures handleClass == (if HasHandles(old(options)) != HasHandles(newOptions) then HasHandles(newOptions)
                              else old(handleClass))
      ensures keydownAttached == KeydownAfterUpdate(old(options), old(keydownAttached), newOptions)
      ensures items == matching && Indexed(matching, indexOf)
      ensures DraggableMarked(old(draggable), draggable, matching, handlesOf, HasHandles(newOptions))
      ensures draggedElement == old(draggedElement) && dropTargetInfo == old(dropTargetInfo)
      ensures indicatorAttached == old(indicatorAttached) && indicatorHidden == old(indicatorHidden)
      ensures reorderEvents == old(reorderEvents) && dragStartedEvents == old(dragStartedEvents)
      ensures dragEndedEvents == old(dragEndedEvents)
      ensures listenersAttached == old(listenersAttached) && observing == old(observing)
      ensures containerClass == old(containerClass)
      ensures forall e :: e !in matching ==>
        && (e in indexOf <==> e in old(indexOf))
        && (e in indexOf ==> indexOf[e] == old(indexOf)[e])
    {
      ApplyOptions(newOptions);
      RefreshItems(matching, handlesOf);
    }

    /** The first half of `update`: the options, the handle class and the keydown listener. */
    method ApplyOptions(newOptions: ReorderableOptions)
      requires keydownAttached ==> KeyboardEnabled(options)
      modifies this`options, this`handleClass, this`keydownAttached
      ensures keydownAttached ==> KeyboardEnabled(options)
      ensures options == WithDefaults(newOptions)
      ensures handleClass == (if HasHandles(old(options)) != HasHandles(newOptions) then HasHandles(newOptions)
                              else old(handleClass))
      ensures keydownAttached == KeydownAfterUpdate(old(options), old(keydownAttached), newOptions)
    {
      var hadHandles := HasHandles(options);
      var hasHandles := HasHandles(newOptions);
      var hadKeyboard := KeyboardEnabled(options);
      var hasKeyboard := KeyboardEnabled(newOptions);

      options := WithDefaults(newOptions);

      if hadHandles != hasHandles {
        handleClass := hasHandles;
      }
      if hadKeyboard != hasKeyboard {
        keydownAttached := hasKeyboard;
      }
    }

    /** `getItems` followed by `addDraggableAttribute` on the new items. */
    method RefreshItems(matching: seq<ElementId>, handlesOf: HandleMap)
      requires Distinct(matching)
      modifies this`items, this`indexOf, this`draggable
      ensures items == matching && Indexed(matching, indexOf)
      ensures DraggableMarked(old(draggable), draggable, matching, handlesOf, HasHandles(options))
      ensures forall e :: e !in matching ==> (e in indexOf <==> e in old(indexOf))
      ensures forall e :: e !in matching && e in indexOf ==> indexOf[e] == old(indexOf)[e]
    {
      GetItems(matching);
      AddDraggableAttribute(items, handlesOf);
    }

    /**
     * `destroy`: classes, listeners (the keydown one only when the stored
     * option is on, which covers every case where it is attached), the
     * observer and the indicator are removed and the items made not draggable.
     */
    method Destroy(handlesOf: HandleMap)
      requires Valid()
      modifies this
      ensures Valid()
      ensures !containerClass && !handleClass
      ensures !listenersAttached && !keydownAttached && !observing && !indicatorAttached
      ensures forall e :: e in old(items) ==> e in draggable && !draggable[e]
      ensures HasHandles(options) ==> forall e :: IsHandleOf(e, old(items), handlesOf) ==> e in draggable && !draggable[e]
      ensures items == old(items) && indexOf == old(indexOf) && options == old(options)
      ensures draggedElement == old(draggedElement) && indicatorHidden == old(indicatorHidden)
      ensures reorderEvents == old(reorderEvents) && dragStartedEvents == old(dragStartedEvents)
      ensures dragEndedEvents == old(dragEndedEvents)
      ensures dropTargetInfo == old(dropTargetInfo)
      ensures forall e :: e !in old(items) && !(HasHandles(options) && IsHandleOf(e, old(items), handlesOf)) ==>
        FlagKept(old(draggable), draggable, e)
    {
      RemoveFromDom();
      UnmarkItems(items, handlesOf);
    }

    /** The first part of `destroy`: classes, listeners, the observer and the indicator go. */
    method RemoveFromDom()
      requires keydownAttached ==> KeyboardEnabled(options)
      modifies this`containerClass, this`handleClass, this`listenersAttached, this`keydownAttached
      modifies this`observing, this`indicatorAttached
      ensures !containerClass && !handleClass
      ensures !listenersAttached && !keydownAttached && !observing && !indicatorAttached
    {
      containerClass := false;
      handleClass := false;
      listenersAttached := false;
      if KeyboardEnabled(options) {
        keydownAttached := false;
      }
      observing := false;
      indicatorAttached := false;
    }

    /** The clean-up loop of `destroy`: the items, and with handles their handles, become not draggable. */
    method UnmarkItems(tracked: seq<ElementId>, handlesOf: HandleMap)
      modifies this`draggable
      ensures forall e :: e in tracked ==> e in draggable && !draggable[e]
      ensures HasHandles(options) ==> forall e :: IsHandleOf(e, tracked, handlesOf) ==> e in draggable && !draggable[e]
      ensures forall e :: e !in tracked && !(HasHandles(options) && IsHandleOf(e, tracked, handlesOf)) ==>
        FlagKept(old(draggable), draggable, e)
    {
      for i := 0 to |tracked|
        invariant forall e :: e in tracked[..i] ==> e in draggable && !draggable[e]
        invariant HasHandles(options) ==>
          forall e :: IsHandleOf(e, tracked[..i], handlesOf) ==> e in draggable && !draggable[e]
        invariant forall e :: e !in tracked[..i] && !(HasHandles(options) && IsHandleOf(e, tracked[..i], handlesOf)) ==>
          FlagKept(old(draggable), draggable, e)
      {
        assert tracked[..i + 1] == tracked[..i] + [tracked[i]];
        HandlesOfConcat(tracked[..i], [tracked[i]], handlesOf);
        ghost var before := draggable;
        UnmarkItem(tracked[i], handlesOf);
        forall e | e in tracked[..i + 1]
          ensures e in draggable && !draggable[e]
        {
          if e != tracked[i] && !(HasHandles(options) && IsHandleOf(e, [tracked[i]], handlesOf)) {
            assert e in tracked[..i] && FlagKept(before, draggable, e);
          }
        }
        forall e | e !in tracked[..i + 1] && !(HasHandles(options) && IsHandleOf(e, tracked[..i + 1], handlesOf))
          ensures FlagKept(old(draggable), draggable, e)
        {
          assert FlagKept(before, draggable, e);
        }
      }
      assert tracked[..|tracked|] == tracked;
    }

    /** The body of the clean-up loop in `destroy`, for one item. */
    method UnmarkItem(item: ElementId, handlesOf: HandleMap)
      modifies this`draggable
      ensures item in draggable && !draggable[item]
      ensures HasHandles(options) ==>
        forall e :: IsHandleOf(e, [item], handlesOf) ==> e in draggable && !draggable[e]
      ensures forall e :: e != item && !(HasHandles(options) && IsHandleOf(e, [item], handlesOf)) ==>
        FlagKept(old(draggable), draggable, e)
    {
      draggable := draggable[item := false];
      if HasHandles(options) {
        var handles := if item in handlesOf then handlesOf[item] else [];
        for j := 0 to |handles|
          invariant item in draggable && !draggable[item]
          invariant forall h :: h in handles[..j] ==> h in draggable && !draggable[h]
          invariant forall e :: e != item && e !in handles[..j] ==> FlagKept(old(draggable), draggable, e)
        {
          assert handles[..j + 1] == handles[..j] + [handles[j]];
          draggable := draggable[handles[j] := false];
        }
        assert handles[..|handles|] == handles;
        assert forall e :: IsHandleOf(e, [item], handlesOf) <==> e in handles;
      }
    }
  }

  /** A drag that ends twice reports its end once. */
  method DragEndTwice(h: ReorderableHandler)
    modifies h
    ensures |h.dragEndedEvents| <= |old(h.dragEndedEvents)| + 1
    ensures h.draggedElement.None?
  {
    h.OnDragEnd();
    h.OnDragEnd();
  }

  /** An indicator taken out of the DOM is back, and hidden, after the next mutation is observed. */
  method IndicatorRestored(h: ReorderableHandler, mutations: seq<MutationRecord>, matching: seq<ElementId>,
                           handlesOf: HandleMap)
    requires h.Valid() && h.observing && Distinct(matching)
    modifies h
    ensures h.Valid() && h.indicatorAttached && h.indicatorHidden
  {
    h.DetachIndicator();
    h.OnMutation(mutations, matching, handlesOf);
  }
}
