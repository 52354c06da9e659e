/** The content script's module-level state and its transitions: page load,
    enabling and disabling the heatmap, the popup's messages, and the
    rescans that scrolling, DOM changes and resizing schedule. */
module Overlay {
  import opened Wrappers
  import opened Color
  import opened Content

  /** A message from the popup: its type and, for UPDATE_OPACITY, the new
      opacity. */
  datatype Message = Message(kind: string, opacity: real)

  /** The initial value of the module variable `opacity`. */
  const InitialOpacity: real := 0.3

  /** What sendResponse is called with. */
  datatype Reply = Status(status: string) | EnabledState(isEnabled: bool)

  /** What a scan reads of the page at the time it runs. */
  datatype Page = Page(nodes: seq<TextNode>, view: Viewport)

  /** The content script of one tab. The canvas is created at page load and
      never removed; the fills it shows are `paints`. */
  class HeatmapOverlay {
    var isEnabled: bool
    var opacity: real
    /** Whether canvas.getContext('2d') gave a context. */
    const hasContext: bool
    /** canvas.style.display is 'block' rather than 'none'. */
    var visible: bool
    /** The scroll listener is attached. */
    var listening: bool
    /** What the canvas shows. */
    var paints: seq<Paint>

    /** What the canvas shows has one fill per rounded rect, and nothing
        is drawn without a context. */
    ghost predicate CanvasValid()
      reads this
    {
      DistinctKeys(paints) && (!hasContext ==> paints == [])
    }

    /** The canvas is shown and rescans on scroll exactly while the heatmap
        is enabled, and while enabled every fill is in the current
        opacity. */
    ghost predicate Valid()
      reads this
    {
      visible == isEnabled && listening == isEnabled && CanvasValid() &&
      (isEnabled ==> forall q :: q in paints ==> q.color.alpha == opacity)
    }

    /** Page load: the hidden canvas is created; disabled, opacity 0.3. */
    constructor (hasContext: bool)
      ensures this.hasContext == hasContext
      ensures !isEnabled && opacity == InitialOpacity && !visible && !listening && paints == []
      ensures Valid()
    {
      this.hasContext := hasContext;
      isEnabled := false;
      opacity := InitialOpacity;
      visible := false;
      listening := false;
      paints := [];
    }

    /** scanForContrastIssues: without a context nothing happens; otherwise
        the canvas is cleared and repainted by one pass over the page in the
        current opacity. */
    method Scan(page: Page, pow: real -> real)
      requires CanvasValid() && IsGammaPow(pow)
      modifies this
      ensures paints == if hasContext then ScanPaints(page.nodes, page.view, opacity, pow) else old(paints)
      ensures isEnabled == old(isEnabled) && opacity == old(opacity)
      ensures visible == old(visible) && listening == old(listening)
      ensures CanvasValid()
      ensures hasContext ==> forall q :: q in paints ==> q.color.alpha == opacity
    {
      if !hasContext {
        return;
      }
      paints := ScanPass(page.nodes, page.view, opacity, pow);
      ScanKeysDistinct(page.nodes, page.view, opacity, pow);
      ScanUsesOpacity(page.nodes, page.view, opacity, pow);
    }

    /** enableHeatmap: show the canvas, scan, and listen for scrolling. */
    method EnableHeatmap(page: Page, pow: real -> real)
      requires Valid() && IsGammaPow(pow)
      modifies this
      ensures isEnabled && visible && listening && opacity == old(opacity)
      ensures paints == if hasContext then ScanPaints(page.nodes, page.view, opacity, pow) else old(paints)
      ensures Valid()
    {
      visible := true;
      Scan(page, pow);
      isEnabled := true;
      listening := true;
    }

    /** disableHeatmap: hide the canvas and stop listening; what was drawn
        stays on the hidden canvas. */
    method DisableHeatmap()
      requires Valid()
      modifies this
      ensures !isEnabled && !visible && !listening
      ensures opacity == old(opacity) && paints == old(paints)
      ensures Valid()
    {
      visible := false;
      listening := false;
      isEnabled := false;
    }

    /** The chrome.runtime.onMessage listener. */
    method OnMessage(msg: Message, page: Page, pow: real -> real) returns (reply: Option<Reply>)
      requires Valid() && IsGammaPow(pow)
      modifies this
      ensures Valid()
      ensures msg.kind == "ENABLE_HEATMAP" ==>
        reply == Some(Status("enabled")) && isEnabled && visible && opacity == old(opacity) &&
        paints == if hasContext then ScanPaints(page.nodes, page.view, opacity, pow) else old(paints)
      ensures msg.kind == "DISABLE_HEATMAP" ==>
        reply == Some(Status("disabled")) && !isEnabled && !visible &&
        opacity == old(opacity) && paints == old(paints)
      ensures msg.kind == "UPDATE_OPACITY" ==>
        reply == Some(Status("updated")) && opacity == msg.opacity &&
        isEnabled == old(isEnabled) && visible == old(visible) &&
        paints == if old(isEnabled) && hasContext then ScanPaints(page.nodes, page.view, msg.opacity, pow) else old(paints)
      ensures msg.kind == "GET_STATUS" ==>
        reply == Some(EnabledState(old(isEnabled))) && unchanged(this)
      ensures msg.kind !in {"ENABLE_HEATMAP", "DISABLE_HEATMAP", "UPDATE_OPACITY", "GET_STATUS"} ==>
        reply == None && unchanged(this)
    {
      if msg.kind == "ENABLE_HEATMAP" {
        EnableHeatmap(page, pow);
        reply := Some(Status("enabled"));
      } else if msg.kind == "DISABLE_HEATMAP" {
        DisableHeatmap();
        reply := Some(Status("disabled"));
      } else if msg.kind == "UPDATE_OPACITY" {
        opacity := msg.opacity;
        if isEnabled {
          Scan(page, pow);
        }
        reply := Some(Status("updated"));
      } else if msg.kind == "GET_STATUS" {
        reply := Some(EnabledState(isEnabled));
      } else {
        reply := None;
      }
    }

    /** The debounced rescan after scrolling or a DOM change: only while
        enabled. */
    method OnRescanTimer(page: Page, pow: real -> real)
      requires Valid() && IsGammaPow(pow)
      modifies this
      ensures Valid()
      ensures isEnabled == old(isEnabled) && opacity == old(opacity) && visible == old(visible)
      ensures paints == if isEnabled && hasContext then ScanPaints(page.nodes, page.view, opacity, pow) else old(paints)
    {
      if isEnabled {
        Scan(page, pow);
      }
    }

    /** handleResize: resizing the canvas clears it; it is repainted only
        while enabled. */
    method OnResize(page: Page, pow: real -> real)
      requires Valid() && IsGammaPow(pow)
      modifies this
      ensures Valid()
      ensures isEnabled == old(isEnabled) && opacity == old(opacity) && visible == old(visible)
      ensures paints == if isEnabled && hasContext then ScanPaints(page.nodes, page.view, opacity, pow) else []
    {
      paints := [];
      if isEnabled {
        Scan(page, pow);
      }
    }
  }
}
