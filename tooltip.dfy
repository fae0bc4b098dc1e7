/**
 * The tooltip action: whether an anchor gets a tooltip, where the tooltip is
 * placed, and the show/hide state machine shared by all tooltips through one
 * record of which tooltip is active.
 *
 * The shared record is an explicit `TooltipRegistry` object that every
 * tooltip instance refers to. The three timers (the 750 ms delayed show, the
 * 300 ms delayed hide and the 200 ms popover hide after the fade-out) are
 * pending flags that `Fire…` methods run. `showPopover` may throw: the caller
 * says whether it does.
 */
module TooltipAction {
  import opened Wrappers
  import opened Geometry
  import Strings

  /** The spacing between anchor and tooltip that is always added to the offset. */
  const TOOLTIP_BASE_OFFSET: real := 6.0
  /** The offset used when the options give none. */
  const TOOLTIP_DEFAULT_OFFSET: real := 0.0
  /** The distance the tooltip keeps from the left and right window edges. */
  const TOOLTIP_PADDING: real := 8.0

  /** `TooltipOptions`. */
  datatype TooltipOptions = TooltipOptions(text: string, offset: Option<real>)

  /** What the action is given: `undefined`, a bare string, or an options object. */
  datatype TooltipInput = Undefined | Plain(text: string) | WithOptions(options: TooltipOptions)

  /** `shouldInitialize`: a tooltip is made only for text that is not blank after trimming. */
  function ShouldInitialize(input: TooltipInput): (r: bool)
    ensures r <==>
      || (input.Plain? && !Strings.AllWhitespace(input.text))
      || (input.WithOptions? && !Strings.AllWhitespace(input.options.text))
  {
    match input
    case Undefined => false
    case Plain(text) =>
      // the empty string is falsy, and trims to the empty string anyway
      Strings.TrimEmptyIffBlank(text);
      text != "" && Strings.Trim(text) != ""
    case WithOptions(options) =>
      Strings.TrimEmptyIffBlank(options.text);
      Strings.Trim(options.text) != ""
  }

  /** The options `initializeTooltip` stores: a string becomes `{ text }`. */
  function InitialOptions(input: TooltipInput): (r: TooltipOptions)
    requires !input.Undefined?
    ensures input.Plain? ==> r == TooltipOptions(input.text, None)
    ensures input.WithOptions? ==> r == input.options
  {
    match input
    case Plain(text) => TooltipOptions(text, None)
    case WithOptions(options) => TooltipOptions(options.text, options.offset)
  }

  /**
   * `Object.assign(opts, newOpts)` in `update`: a string replaces only the
   * text and keeps the offset; an options object replaces both, so an absent
   * offset clears the stored one.
   */
  function UpdatedOptions(opts: TooltipOptions, input: TooltipInput): (r: TooltipOptions)
    requires !input.Undefined?
    ensures input.Plain? ==> r.text == input.text && r.offset == opts.offset
    ensures input.WithOptions? ==> r == input.options
  {
    match input
    case Plain(text) => opts.(text := text)
    case WithOptions(options) => opts.(text := options.text, offset := options.offset)
  }

  // ---------------------------------------------------------------------------
  // Placement
  // ---------------------------------------------------------------------------

  datatype Placement = Top | Bottom

  /** Where `positionTooltip` puts the tooltip and how far it shifts the arrow. */
  datatype TooltipPosition = TooltipPosition(placement: Placement, left: real, top: real, arrowOffset: real)

  /** The document x at which the tooltip is centred on its anchor. */
  function CenteredLeft(anchor: Rect, tooltip: Rect, scrollX: real): real {
    anchor.Left() + scrollX + (anchor.width - tooltip.width) / 2.0
  }

  /**
   * `positionTooltip`: below the anchor when there is room for the tooltip
   * and the offset, else above; centred on the anchor, then pushed back from
   * at most one window edge, with the arrow shifted the other way so that it
   * stays on the anchor's centre.
   */
  function PositionTooltip(anchor: Rect, tooltip: Rect, window: Viewport, offset: Option<real>)
    : (p: TooltipPosition)
    ensures var off := offset.GetOr(TOOLTIP_DEFAULT_OFFSET);
      p.placement == Bottom <==> window.innerHeight - anchor.Bottom() >= tooltip.height + off
    ensures var off := offset.GetOr(TOOLTIP_DEFAULT_OFFSET);
      p.top == if p.placement == Bottom
               then anchor.Bottom() + window.scrollY + off + TOOLTIP_BASE_OFFSET
               else anchor.Top() + window.scrollY - tooltip.height - off - TOOLTIP_BASE_OFFSET
    ensures p.left + p.arrowOffset == CenteredLeft(anchor, tooltip, window.scrollX)
    ensures var left0 := CenteredLeft(anchor, tooltip, window.scrollX);
      && (p.arrowOffset < 0.0 <==> left0 < TOOLTIP_PADDING)
      && (p.arrowOffset > 0.0 <==>
            left0 >= TOOLTIP_PADDING && left0 + tooltip.width > window.innerWidth - TOOLTIP_PADDING)
      && (p.arrowOffset < 0.0 ==> p.left == TOOLTIP_PADDING)
      && (p.arrowOffset > 0.0 ==> p.left + tooltip.width == window.innerWidth - TOOLTIP_PADDING)
  {
    var off := offset.GetOr(TOOLTIP_DEFAULT_OFFSET);
    var spaceBelow := window.innerHeight - anchor.Bottom();
    var placement := if spaceBelow >= tooltip.height + off then Bottom else Top;
    var left := CenteredLeft(anchor, tooltip, window.scrollX);
    var top :=
      if placement == Bottom then anchor.Bottom() + window.scrollY + off + TOOLTIP_BASE_OFFSET
      else anchor.Top() + window.scrollY - tooltip.height - off - TOOLTIP_BASE_OFFSET;
    var tooltipLeft := left;
    var tooltipRight := left + tooltip.width;
    if tooltipLeft < TOOLTIP_PADDING then
      var adjustment := TOOLTIP_PADDING - tooltipLeft;
      TooltipPosition(placement, left + adjustment, top, -adjustment)
    else if tooltipRight > window.innerWidth - TOOLTIP_PADDING then
      var adjustment := tooltipRight - (window.innerWidth - TOOLTIP_PADDING);
      TooltipPosition(placement, left - adjustment, top, adjustment)
    else
      TooltipPosition(placement, left, top, 0.0)
  }

  /**
   * Without horizontal scrolling, a tooltip narrower than the window minus
   * both paddings ends up inside the padded window.
   */
  lemma TooltipInsideWindow(anchor: Rect, tooltip: Rect, window: Viewport, offset: Option<real>)
    requires window.scrollX == 0.0
    requires 0.0 <= tooltip.width <= window.innerWidth - 2.0 * TOOLTIP_PADDING
    ensures var p := PositionTooltip(anchor, tooltip, window, offset);
      TOOLTIP_PADDING <= p.left && p.left + tooltip.width <= window.innerWidth - TOOLTIP_PADDING
  {
  }

  /**
   * The edge checks compare a document coordinate with the window's width:
   * scrolled 1000 px to the right, a tooltip that would start 45 px left of
   * the window's edge is taken to overflow the right edge and is moved a
   * further 263 px to the left.
   */
  lemma EdgeCheckIgnoresScroll()
    ensures var window := Viewport(800.0, 600.0, 1000.0, 0.0);
      var p := PositionTooltip(Rect(0.0, 100.0, 10.0, 20.0), Rect(0.0, 0.0, 100.0, 30.0), window, None);
      p.arrowOffset == 263.0 && p.left - window.scrollX == -308.0
  {
  }

  // ---------------------------------------------------------------------------
  // The state machine
  // ---------------------------------------------------------------------------

  /** `globalTooltipState`: the tooltip that is showing, if any. */
  class TooltipRegistry {
    var activeTooltip: Tooltip?
    var isAnyTooltipVisible: bool

    /** The flag says exactly whether there is an active tooltip, and the active tooltip is showing. */
    ghost predicate Valid()
      reads this, activeTooltip
    {
      && isAnyTooltipVisible == (activeTooltip != null)
      && (activeTooltip != null ==>
            activeTooltip.isVisible && activeTooltip.hasElement && activeTooltip.registry == this)
    }

    constructor ()
      ensures Valid() && activeTooltip == null && !isAnyTooltipVisible
    {
      activeTooltip := null;
      isAnyTooltipVisible := false;
    }
  }

  /**
   * One use of the action on an anchor: its `TooltipState`, its stored
   * options and its listeners.
   */
  class Tooltip {
    const registry: TooltipRegistry
    /** `state.isVisible`, `state.element !== null`, `state.isInitialized`. */
    var isVisible: bool
    var hasElement: bool
    var isInitialized: bool
    /** `state.timeoutId` and `state.hideTimeoutId` are set. */
    var pendingShow: bool
    var pendingHide: bool
    /** The 200 ms timer that calls `hidePopover` after the fade-out is set. */
    var pendingPopoverHide: bool
    /** The popover is open in the DOM. */
    var popoverOpen: bool
    /** The text in the bubble. */
    var shownText: string
    /** `opts`. */
    var opts: Option<TooltipOptions>
    /** The anchor, tooltip and window listeners are attached. */
    var listenersAttached: bool

    ghost predicate Valid()
      reads this, registry, registry.activeTooltip
    {
      && registry.Valid()
      && (isInitialized <==> opts.Some?)
      && (isInitialized <==> hasElement)
      && (isInitialized <==> listenersAttached)
      && (pendingShow || pendingHide ==> isInitialized)
      && (isVisible ==> hasElement)
    }

    /** `tooltip(element, options)`: initialised when the options pass `shouldInitialize`. */
    constructor (registry: TooltipRegistry, options: TooltipInput)
      requires registry.Valid()
      ensures Valid() && this.registry == registry
      ensures isInitialized == ShouldInitialize(options)
      ensures isInitialized ==> opts == Some(InitialOptions(options))
      ensures !isVisible && !pendingShow && !pendingHide && !pendingPopoverHide && !popoverOpen
    {
      this.registry := registry;
      isVisible := false;
      pendingShow := false;
      pendingHide := false;
      pendingPopoverHide := false;
      popoverOpen := false;
      shownText := "";
      if ShouldInitialize(options) {
        // initializeTooltip
        opts := Some(InitialOptions(options));
        hasElement := true;
        listenersAttached := true;
        isInitialized := true;
      } else {
        opts := None;
        hasElement := false;
        listenersAttached := false;
        isInitialized := false;
      }
    }

    /** `initializeTooltip`: a no-op when already initialised. */
    method Initialize(newOptions: TooltipInput)
      requires Valid() && !newOptions.Undefined?
      modifies this
      ensures Valid()
      ensures isInitialized && hasElement && listenersAttached
      ensures opts == if old(isInitialized) then old(opts) else Some(InitialOptions(newOptions))
      ensures isVisible == old(isVisible) && pendingShow == old(pendingShow) && pendingHide == old(pendingHide)
      ensures popoverOpen == (old(isInitialized) && old(popoverOpen)) && shownText == old(shownText)
      ensures pendingPopoverHide == old(pendingPopoverHide)
    {
      if isInitialized {
        return;
      }
      opts := Some(InitialOptions(newOptions));
      // a newly created tooltip element starts with its popover closed
      popoverOpen := false;
      hasElement := true;
      listenersAttached := true;
      isInitialized := true;
    }

    /** `clearTimeouts`. */
    method ClearTimeouts()
      requires Valid()
      modifies this`pendingShow, this`pendingHide
      ensures Valid()
      ensures !pendingShow && !pendingHide
    {
      pendingShow := false;
      pendingHide := false;
    }

    /**
     * `showTooltip`: with an element, the text is set; unless `showPopover`
     * throws, the tooltip becomes visible and the active one.
     */
    method ShowTooltip(text: string, popoverThrows: bool)
      requires Valid()
      modifies this, registry
      ensures Valid()
      ensures old(hasElement) ==> shownText == text
      ensures old(hasElement) && !popoverThrows ==>
        isVisible && popoverOpen && registry.activeTooltip == this && registry.isAnyTooltipVisible
      ensures !old(hasElement) || popoverThrows ==>
        isVisible == old(isVisible) && popoverOpen == old(popoverOpen)
        && registry.activeTooltip == old(registry.activeTooltip)
        && registry.isAnyTooltipVisible == old(registry.isAnyTooltipVisible)
      ensures isInitialized == old(isInitialized) && opts == old(opts) && hasElement == old(hasElement)
      ensures pendingShow == old(pendingShow) && pendingHide == old(pendingHide)
      ensures pendingPopoverHide == old(pendingPopoverHide) && listenersAttached == old(listenersAttached)
    {
      if !hasElement {
        return;
      }
      shownText := text;
      if popoverThrows {
        return;
      }
      popoverOpen := true;
      isVisible := true;
      registry.isAnyTooltipVisible := true;
      registry.activeTooltip := this;
    }

    /**
     * `hideTooltip`: a no-op unless visible. Otherwise the fade-out starts (the
     * popover is hidden by a timer), the tooltip is no longer visible, and the
     * shared record is cleared only when this tooltip is the active one.
     */
    method HideTooltip()
      requires Valid()
      modifies this, registry
      ensures Valid()
      ensures !old(hasElement) || !old(isVisible) ==>
        && pendingPopoverHide == old(pendingPopoverHide)
        && registry.activeTooltip == old(registry.activeTooltip)
        && registry.isAnyTooltipVisible == old(registry.isAnyTooltipVisible)
      ensures old(hasElement) && old(isVisible) ==>
        && pendingPopoverHide
        && registry.activeTooltip == (if old(registry.activeTooltip) == this then null else old(registry.activeTooltip))
      ensures !isVisible
      ensures isInitialized == old(isInitialized) && opts == old(opts) && hasElement == old(hasElement)
      ensures pendingShow == old(pendingShow) && pendingHide == old(pendingHide)
      ensures popoverOpen == old(popoverOpen) && shownText == old(shownText)
      ensures listenersAttached == old(listenersAttached)
    {
      if !hasElement || !isVisible {
        return;
      }
      pendingPopoverHide := true;
      isVisible := false;
      if registry.activeTooltip == this {
        registry.activeTooltip := null;
        registry.isAnyTooltipVisible := false;
      }
    }

    /**
     * `handleMouseEnter` (and `handleFocus` on a focus-visible anchor): while
     * another tooltip is showing, that one is hidden and this one shown at
     * once; otherwise the delayed show is scheduled.
     */
    method OnMouseEnter(popoverThrows: bool)
      requires Valid() && listenersAttached
      modifies this, registry, registry.activeTooltip
      ensures Valid()
      ensures old(registry.isAnyTooltipVisible) && old(registry.activeTooltip) != this ==>
        && old(registry.activeTooltip) != null
        && !old(registry.activeTooltip).isVisible
        && !old(registry.activeTooltip).pendingShow && !old(registry.activeTooltip).pendingHide
        && old(registry.activeTooltip).pendingPopoverHide
        && old(registry.activeTooltip).opts == old(registry.activeTooltip.opts)
        && old(registry.activeTooltip).isInitialized == old(registry.activeTooltip.isInitialized)
        && old(registry.activeTooltip).hasElement == old(registry.activeTooltip.hasElement)
        && old(registry.activeTooltip).listenersAttached == old(registry.activeTooltip.listenersAttached)
        && old(registry.activeTooltip).popoverOpen == old(registry.activeTooltip.popoverOpen)
        && old(registry.activeTooltip).shownText == old(registry.activeTooltip.shownText)
        && !pendingShow && !pendingHide
        && shownText == old(opts).value.text && pendingPopoverHide == old(pendingPopoverHide)
        && (!popoverThrows ==> isVisible && popoverOpen && registry.activeTooltip == this)
        && (popoverThrows ==>
              && isVisible == old(isVisible) && popoverOpen == old(popoverOpen)
              && registry.activeTooltip == null && !registry.isAnyTooltipVisible)
      ensures !(old(registry.isAnyTooltipVisible) && old(registry.activeTooltip) != this) ==>
        && pendingShow && !pendingHide
        && isVisible == old(isVisible) && popoverOpen == old(popoverOpen)
        && shownText == old(shownText) && pendingPopoverHide == old(pendingPopoverHide)
        && registry.activeTooltip == old(registry.activeTooltip)
        && registry.isAnyTooltipVisible == old(registry.isAnyTooltipVisible)
      ensures isInitialized && opts == old(opts) && hasElement && listenersAttached
    {
      ClearTimeouts();
      if registry.isAnyTooltipVisible && registry.activeTooltip != this {
        var other := registry.activeTooltip;
        other.pendingShow := false;
        other.pendingHide := false;
        assert registry.Valid();
        HideActive(other);
        ShowTooltip(opts.value.text, popoverThrows);
        assert !other.isVisible;
      } else {
        pendingShow := true;
      }
    }

    /** The hide of another, active tooltip inside `OnMouseEnter`; it leaves this one alone. */
    method HideActive(other: Tooltip)
      requires Valid() && other == registry.activeTooltip && other != this && other.registry == registry
      modifies other, registry
      ensures Valid()
      ensures !other.isVisible && registry.activeTooltip == null && other.pendingPopoverHide
      ensures other.pendingShow == old(other.pendingShow) && other.pendingHide == old(other.pendingHide)
      ensures other.opts == old(other.opts) && other.isInitialized == old(other.isInitialized)
      ensures other.hasElement == old(other.hasElement) && other.listenersAttached == old(other.listenersAttached)
      ensures other.popoverOpen == old(other.popoverOpen) && other.shownText == old(other.shownText)
    {
      other.pendingPopoverHide := true;
      other.isVisible := false;
      registry.activeTooltip := null;
      registry.isAnyTooltipVisible := false;
    }

    /** `handleFocus`: only a focus-visible anchor reacts, as on mouse enter. */
    method OnFocus(focusVisible: bool, popoverThrows: bool)
      requires Valid() && listenersAttached
      modifies this, registry, registry.activeTooltip
      ensures Valid()
      ensures !focusVisible ==> unchanged(this) && unchanged(registry)
      ensures focusVisible && old(registry.isAnyTooltipVisible) && old(registry.activeTooltip) != this ==>
        && old(registry.activeTooltip) != null
        && !old(registry.activeTooltip).isVisible
        && !old(registry.activeTooltip).pendingShow && !old(registry.activeTooltip).pendingHide
        && old(registry.activeTooltip).pendingPopoverHide
        && old(registry.activeTooltip).opts == old(registry.activeTooltip.opts)
        && old(registry.activeTooltip).isInitialized == old(registry.activeTooltip.isInitialized)
        && old(registry.activeTooltip).hasElement == old(registry.activeTooltip.hasElement)
        && old(registry.activeTooltip).listenersAttached == old(registry.activeTooltip.listenersAttached)
        && old(registry.activeTooltip).popoverOpen == old(registry.activeTooltip.popoverOpen)
        && old(registry.activeTooltip).shownText == old(registry.activeTooltip.shownText)
        && !pendingShow && !pendingHide
        && shownText == old(opts).value.text && pendingPopoverHide == old(pendingPopoverHide)
        && (!popoverThrows ==> isVisible && popoverOpen && registry.activeTooltip == this)
        && (popoverThrows ==>
              && isVisible == old(isVisible) && popoverOpen == old(popoverOpen)
              && registry.activeTooltip == null && !registry.isAnyTooltipVisible)
      ensures focusVisible && !(old(registry.isAnyTooltipVisible) && old(registry.activeTooltip) != this) ==>
        && pendingShow && !pendingHide
        && isVisible == old(isVisible) && popoverOpen == old(popoverOpen)
        && shownText == old(shownText) && pendingPopoverHide == old(pendingPopoverHide)
        && registry.activeTooltip == old(registry.activeTooltip)
        && registry.isAnyTooltipVisible == old(registry.isAnyTooltipVisible)
      ensures isInitialized == old(isInitialized) && opts == old(opts)
    {
      if focusVisible {
        OnMouseEnter(popoverThrows);
      }
    }

    /** `handleMouseLeave` (also on blur): a visible tooltip gets a delayed hide. */
    method OnMouseLeave()
      requires Valid() && listenersAttached
      modifies this`pendingShow, this`pendingHide
      ensures Valid()
      ensures !pendingShow && pendingHide == isVisible
    {
      ClearTimeouts();
      if isVisible {
        pendingHide := true;
      }
    }

    /** `handleMouseEnterTooltip`: hovering the tooltip itself keeps it. */
    method OnMouseEnterTooltip()
      requires Valid() && listenersAttached
      modifies this`pendingShow, this`pendingHide
      ensures Valid()
      ensures !pendingShow && !pendingHide
    {
      ClearTimeouts();
    }

    /** `handleMouseLeaveTooltip`: leaving the tooltip schedules a delayed hide. */
    method OnMouseLeaveTooltip()
      requires Valid() && listenersAttached
      modifies this`pendingShow, this`pendingHide
      ensures Valid()
      ensures !pendingShow && pendingHide
    {
      ClearTimeouts();
      pendingHide := true;
    }

    /**
     * `handleTogglePopover`: a popover closed from outside (Escape) makes a
     * visible tooltip invisible and gives up ownership if it had it.
     */
    method OnTogglePopover(closed: bool)
      requires Valid() && listenersAttached
      modifies this`isVisible, this`popoverOpen, registry
      ensures Valid()
      ensures closed ==> !popoverOpen && !isVisible
      ensures closed && old(isVisible) ==>
        registry.activeTooltip == (if old(registry.activeTooltip) == this then null else old(registry.activeTooltip))
      ensures !(closed && old(isVisible)) ==> isVisible == old(isVisible) && unchanged(registry)
    {
      if closed {
        popoverOpen := false;
      }
      if closed && isVisible {
        isVisible := false;
        if registry.activeTooltip == this {
          registry.activeTooltip := null;
          registry.isAnyTooltipVisible := false;
        }
      }
    }

    /** `handlePositionUpdate`: a visible tooltip is placed again with its stored offset. */
    method OnPositionUpdate(anchor: Rect, tooltip: Rect, window: Viewport) returns (p: Option<TooltipPosition>)
      requires Valid() && listenersAttached
      ensures p.Some? <==> isVisible
      ensures p.Some? ==> p.value == PositionTooltip(anchor, tooltip, window, opts.value.offset)
    {
      if isVisible && hasElement && opts.Some? {
        return Some(PositionTooltip(anchor, tooltip, window, opts.value.offset));
      }
      return None;
    }

    /** The delayed show fires with the text stored at that moment. */
    method FireShowTimer(popoverThrows: bool)
      requires Valid() && pendingShow
      modifies this, registry
      ensures Valid()
      ensures !pendingShow && shownText == old(opts).value.text
      ensures !popoverThrows ==> isVisible && popoverOpen && registry.activeTooltip == this
      ensures popoverThrows ==>
        && isVisible == old(isVisible) && popoverOpen == old(popoverOpen)
        && registry.activeTooltip == old(registry.activeTooltip)
        && registry.isAnyTooltipVisible == old(registry.isAnyTooltipVisible)
      ensures pendingHide == old(pendingHide) && pendingPopoverHide == old(pendingPopoverHide)
      ensures isInitialized == old(isInitialized) && opts == old(opts)
    {
      pendingShow := false;
      ShowTooltip(opts.value.text, popoverThrows);
    }

    /** The delayed hide fires. */
    method FireHideTimer()
      requires Valid() && pendingHide
      modifies this, registry
      ensures Valid()
      ensures !pendingHide && !isVisible && registry.activeTooltip != this
      ensures pendingPopoverHide == (old(pendingPopoverHide) || (old(hasElement) && old(isVisible)))
      ensures registry.activeTooltip == (if old(registry.activeTooltip) == this then null else old(registry.activeTooltip))
      ensures registry.isAnyTooltipVisible == (registry.activeTooltip != null)
      ensures opts == old(opts) && isInitialized == old(isInitialized) && hasElement == old(hasElement)
      ensures listenersAttached == old(listenersAttached) && pendingShow == old(pendingShow)
      ensures popoverOpen == old(popoverOpen) && shownText == old(shownText)
    {
      pendingHide := false;
      HideTooltip();
    }

    /** The popover-hide timer fires: the popover closes if the element still exists. */
    method FirePopoverHide()
      requires Valid() && pendingPopoverHide
      modifies this`pendingPopoverHide, this`popoverOpen
      ensures Valid()
      ensures !pendingPopoverHide && popoverOpen == (old(popoverOpen) && !hasElement)
    {
      pendingPopoverHide := false;
      if hasElement {
        popoverOpen := false;
      }
    }

    /**
     * `destroyTooltip`: a no-op when not initialised; otherwise the timers are
     * cleared, ownership is given up, the listeners and the element removed,
     * and the tooltip is neither visible nor initialised.
     */
    method Destroy()
      requires Valid()
      modifies this, registry
      ensures Valid()
      ensures !old(isInitialized) ==> unchanged(this) && unchanged(registry)
      ensures old(isInitialized) ==>
        && !isVisible && !isInitialized && !hasElement && !listenersAttached && opts.None?
        && !pendingShow && !pendingHide
        && registry.activeTooltip == (if old(registry.activeTooltip) == this then null else old(registry.activeTooltip))
        && !popoverOpen
    {
      if !isInitialized {
        return;
      }
      ClearTimeouts();
      if registry.activeTooltip == this {
        registry.activeTooltip := null;
        registry.isAnyTooltipVisible := false;
      }
      listenersAttached := false;
      if hasElement {
        if isVisible {
          popoverOpen := false;
        }
        // an element taken out of the document closes its popover
        popoverOpen := false;
        hasElement := false;
      }
      isVisible := false;
      isInitialized := false;
      opts := None;
    }

    /**
     * `update`: valid options initialise an uninitialised tooltip, invalid
     * options destroy an initialised one, and otherwise an initialised tooltip
     * only takes the new text and offset (showing the new text when visible).
     */
    method Update(newOptions: TooltipInput)
      requires Valid()
      modifies this, registry
      ensures Valid()
      ensures ShouldInitialize(newOptions) ==> isInitialized
      ensures !ShouldInitialize(newOptions) ==> !isInitialized && !isVisible
      ensures ShouldInitialize(newOptions) && !old(isInitialized) ==>
        && opts == Some(InitialOptions(newOptions)) && !popoverOpen
        && isVisible == old(isVisible) && pendingShow == old(pendingShow) && pendingHide == old(pendingHide)
        && shownText == old(shownText) && pendingPopoverHide == old(pendingPopoverHide)
        && unchanged(registry)
      ensures ShouldInitialize(newOptions) && old(isInitialized) ==>
        && opts == Some(UpdatedOptions(old(opts).value, newOptions))
        && isVisible == old(isVisible) && unchanged(registry)
        && shownText == (if old(isVisible) then opts.value.text else old(shownText))
        && pendingShow == old(pendingShow) && pendingHide == old(pendingHide)
        && hasElement == old(hasElement) && listenersAttached == old(listenersAttached)
        && popoverOpen == old(popoverOpen) && pendingPopoverHide == old(pendingPopoverHide)
      ensures !ShouldInitialize(newOptions) && !old(isInitialized) ==> unchanged(this) && unchanged(registry)
      ensures !ShouldInitialize(newOptions) && old(isInitialized) ==>
        && !hasElement && !listenersAttached && !popoverOpen && !pendingShow && !pendingHide
        && registry.activeTooltip == (if old(registry.activeTooltip) == this then null else old(registry.activeTooltip))
    {
      var shouldInit := ShouldInitialize(newOptions);
      if shouldInit {
        if !isInitialized {
          Initialize(newOptions);
        } else {
          ReplaceOptions(newOptions);
        }
      } else if isInitialized {
        Destroy();
      }
    }

    /** The last branch of `update`: `Object.assign` on the stored options, and the new text when visible. */
    method ReplaceOptions(newOptions: TooltipInput)
      requires Valid() && isInitialized && !newOptions.Undefined?
      modifies this`opts, this`shownText
      ensures Valid()
      ensures opts == Some(UpdatedOptions(old(opts).value, newOptions))
      ensures shownText == (if isVisible then opts.value.text else old(shownText))
    {
      opts := Some(UpdatedOptions(opts.value, newOptions));
      if isVisible && hasElement {
        shownText := opts.value.text;
      }
    }
  }

  /** Two tooltips on one registry, both initialised and hidden, nothing scheduled. */
  method TwoIdleTooltips(textA: string, textB: string) returns (a: Tooltip, b: Tooltip)
    requires !Strings.AllWhitespace(textA) && !Strings.AllWhitespace(textB)
    ensures fresh(a) && fresh(b) && fresh(a.registry)
    ensures a != b && a.registry == b.registry && a.registry.activeTooltip == null
    ensures a.Valid() && b.Valid() && a.listenersAttached && b.listenersAttached
    ensures !a.isVisible && !b.isVisible && !a.pendingShow && !b.pendingShow
  {
    var registry := new TooltipRegistry();
    a := new Tooltip(registry, Plain(textA));
    b := new Tooltip(registry, Plain(textB));
  }

  /**
   * Only the immediate path of `handleMouseEnter` hides the active tooltip:
   * two delayed shows that were both scheduled while nothing was visible
   * leave two tooltips visible, the later one active.
   */
  method TwoDelayedShows() returns (a: Tooltip, b: Tooltip)
    ensures a.isVisible && b.isVisible && a != b
    ensures a.registry == b.registry && a.registry.activeTooltip == a
  {
    assert !Strings.IsWhitespace("a"[0]) && !Strings.IsWhitespace("b"[0]);
    a, b := TwoIdleTooltips("a", "b");
    b.OnMouseEnter(false);
    a.OnMouseEnter(false);
    b.FireShowTimer(false);
    a.FireShowTimer(false);
  }
}
