/** The decision logic of the content script with the DOM abstracted: the
    effective-background walk, the large-text threshold, the viewport test
    and one pass of the scan that paints each visible text rectangle once. */
module Content {
  import opened Wrappers
  import opened JsString
  import opened Color

  // ---------------------------------------------------------------------
  // Effective background

  /** What the walk needs of an element: its computed background-color and
      whether it is document.documentElement. */
  datatype Element = Element(background: string, isDocumentElement: bool)

  /** A background the walk accepts: non-empty and neither the fully
      transparent black that browsers report nor the keyword. */
  predicate IsPainted(bg: string) {
    bg != "" && bg != "rgba(0, 0, 0, 0)" && bg != "transparent"
  }

  /** The colour getEffectiveBackgroundColor returns for an element.
      `path` is the element followed by its ancestors, nearest first; the
      path ends where parentElement is null. */
  function EffectiveBackground(path: seq<Element>): (c: Option<Rgb>)
    ensures c.Some? ==> AboveFloor(c.value)
  {
    if path == [] || path[0].isDocumentElement then Some(White)
    else if IsPainted(path[0].background) then ParseColor(path[0].background)
    else EffectiveBackground(path[1..])
  }

  /** getEffectiveBackgroundColor: climb parentElement links until a painted
      background, the document element or the top. */
  method EffectiveBackgroundColor(path: seq<Element>) returns (c: Option<Rgb>)
    ensures c == EffectiveBackground(path)
  {
    var i := 0;
    while i < |path| && !path[i].isDocumentElement
      invariant 0 <= i <= |path|
      invariant EffectiveBackground(path[i..]) == EffectiveBackground(path)
    {
      var bg := path[i].background;
      if IsPainted(bg) {
        c := ParseColor(bg);
        return;
      }
      i := i + 1;
    }
    c := Some(White);
  }

  /** Elements the walk passes over: not the document element and not
      painted. */
  predicate SkippedPrefix(path: seq<Element>, j: nat)
    requires j <= |path|
  {
    forall i :: 0 <= i < j ==> !path[i].isDocumentElement && !IsPainted(path[i].background)
  }

  /** The first painted background before the document element decides. */
  lemma {:induction false} BackgroundIsFirstPainted(path: seq<Element>, j: nat)
    requires j < |path| && SkippedPrefix(path, j)
    requires !path[j].isDocumentElement && IsPainted(path[j].background)
    ensures EffectiveBackground(path) == ParseColor(path[j].background)
    decreases j
  {
    if j > 0 {
      assert SkippedPrefix(path[1..], j - 1) by {
        forall i | 0 <= i < j - 1
          ensures !path[1..][i].isDocumentElement && !IsPainted(path[1..][i].background)
        {
          assert path[1..][i] == path[i + 1];
        }
      }
      BackgroundIsFirstPainted(path[1..], j - 1);
    }
  }

  /** When no painted background comes before the document element (or the
      top), the result is white; the document element's own background is
      never read. */
  lemma {:induction false} NoPaintedIsWhite(path: seq<Element>, j: nat)
    requires j <= |path| && SkippedPrefix(path, j)
    requires j == |path| || path[j].isDocumentElement
    ensures EffectiveBackground(path) == Some(White)
    decreases j
  {
    if j > 0 {
      assert SkippedPrefix(path[1..], j - 1) by {
        forall i | 0 <= i < j - 1
          ensures !path[1..][i].isDocumentElement && !IsPainted(path[1..][i].background)
        {
          assert path[1..][i] == path[i + 1];
        }
      }
      NoPaintedIsWhite(path[1..], j - 1);
    }
  }

  /** The result is white or the parse of some painted background on the
      path below the document element. */
  lemma {:induction false} BackgroundComesFromPath(path: seq<Element>)
    ensures var c := EffectiveBackground(path);
      c == Some(White) ||
      exists j :: 0 <= j < |path| && SkippedPrefix(path, j) && !path[j].isDocumentElement &&
        IsPainted(path[j].background) && c == ParseColor(path[j].background)
  {
    if path != [] && !path[0].isDocumentElement && !IsPainted(path[0].background) {
      BackgroundComesFromPath(path[1..]);
      var c := EffectiveBackground(path[1..]);
      if c != Some(White) {
        var j :| 0 <= j < |path[1..]| && SkippedPrefix(path[1..], j) && !path[1..][j].isDocumentElement &&
          IsPainted(path[1..][j].background) && c == ParseColor(path[1..][j].background);
        assert path[1..][j] == path[j + 1];
        assert SkippedPrefix(path, j + 1) by {
          forall i | 0 <= i < j + 1
            ensures !path[i].isDocumentElement && !IsPainted(path[i].background)
          {
            if i > 0 {
              assert path[i] == path[1..][i - 1];
            }
          }
        }
      }
    } else if path != [] && !path[0].isDocumentElement {
      assert SkippedPrefix(path, 0);
    }
  }

  // ---------------------------------------------------------------------
  // Text size

  /** getFontSize: 'large' from 24px up (about 18pt), 'normal' below. */
  function FontSizeClass(px: real): (size: TextSize)
    ensures size == Large <==> px >= 24.0
  {
    if px >= 24.0 then Large else Normal
  }

  /** A larger font never gets a lower tier at the same contrast ratio. */
  lemma LargerFontNeverLowersTier(ratio: real, px1: real, px2: real)
    requires px1 <= px2
    ensures Rank(WcagLevel(ratio, FontSizeClass(px1))) <= Rank(WcagLevel(ratio, FontSizeClass(px2)))
  {
    if FontSizeClass(px1) != FontSizeClass(px2) {
      LargeNeverBelowNormal(ratio);
    }
  }

  // ---------------------------------------------------------------------
  // Viewport

  /** A DOMRect in viewport coordinates. */
  datatype Rect = Rect(left: real, top: real, width: real, height: real)

  function Right(r: Rect): real {
    r.left + r.width
  }

  function Bottom(r: Rect): real {
    r.top + r.height
  }

  /** innerWidth, innerHeight and the scroll offsets of the window. */
  datatype Viewport = Viewport(innerWidth: real, innerHeight: real, scrollX: real, scrollY: real)

  /** isElementInViewport: strict on all four edges. */
  predicate InViewport(r: Rect, v: Viewport) {
    r.top < v.innerHeight && Bottom(r) > 0.0 && r.left < v.innerWidth && Right(r) > 0.0
  }

  /** The point (x, y) lies strictly inside the rectangle. */
  predicate Covers(r: Rect, x: real, y: real) {
    r.left < x < Right(r) && r.top < y < Bottom(r)
  }

  /** The point (x, y) lies strictly inside the window. */
  predicate OnScreen(v: Viewport, x: real, y: real) {
    0.0 < x < v.innerWidth && 0.0 < y < v.innerHeight
  }

  /** For a rectangle and a window of positive size, the test holds exactly
      when some point strictly inside the rectangle is strictly inside the
      window; a rectangle that only touches an edge is not in view. */
  lemma InViewportIffOverlap(r: Rect, v: Viewport)
    requires r.width > 0.0 && r.height > 0.0 && v.innerWidth > 0.0 && v.innerHeight > 0.0
    ensures InViewport(r, v) <==> exists x, y :: Covers(r, x, y) && OnScreen(v, x, y)
  {
    if InViewport(r, v) {
      var x := (MaxReal(r.left, 0.0) + MinReal(Right(r), v.innerWidth)) / 2.0;
      var y := (MaxReal(r.top, 0.0) + MinReal(Bottom(r), v.innerHeight)) / 2.0;
      assert Covers(r, x, y) && OnScreen(v, x, y);
    }
  }

  // ---------------------------------------------------------------------
  // One scan pass

  /** Math.round: the nearest integer, halves rounded up. */
  function Round(x: real): (n: int)
    ensures n as real - 0.5 <= x < n as real + 0.5
  {
    (x + 0.5).Floor
  }

  /** What the pass reads of a text node's parent element: its computed
      display, color and font size, and the element with its ancestors for
      the background walk. */
  datatype Parent = Parent(display: string, color: string, fontPx: real, path: seq<Element>)

  /** A text node: its text, its parent element (None when parentElement is
      null) and its client rects (None when measuring them throws). */
  datatype TextNode = TextNode(text: string, parent: Option<Parent>, rects: Option<seq<Rect>>)

  /** One fillRect call, in document coordinates, with its fill colour. */
  datatype Paint = Paint(x: real, y: real, width: real, height: real, color: Rgba)

  /** The rounded rectangle that keys drawnRects; the dash-joined decimal
      string of four integers determines them, so the tuple stands for it. */
  type Key = (int, int, int, int)

  /** rectKey: the rounded document position and the rounded size. */
  function RectKey(docLeft: real, docTop: real, width: real, height: real): Key {
    (Round(docLeft), Round(docTop), Round(width), Round(height))
  }

  /** The key of the rectangle a fill covers. */
  function KeyOf(q: Paint): Key {
    RectKey(q.x, q.y, q.width, q.height)
  }

  /** A text node the pass measures: its text is not blank after trim, it
      has a parent that is not display: none, and its rects were measured. */
  predicate Scanned(n: TextNode) {
    Trim(n.text) != [] && n.parent.Some? && n.parent.value.display != "none" && n.rects.Some?
  }

  /** A rect the pass paints unless its key was already drawn. */
  predicate Drawable(r: Rect, v: Viewport) {
    r.width != 0.0 && r.height != 0.0 && InViewport(r, v)
  }

  /** The tier of a parent's text. A parse that yields NaN makes the ratio
      NaN, every comparison false, and the tier fail. */
  function NodeLevel(p: Parent, pow: real -> real): Level
    requires IsGammaPow(pow)
  {
    var fg := ParseColor(p.color);
    var bg := EffectiveBackground(p.path);
    if fg.None? || bg.None? then Fail
    else WcagLevel(ContrastRatio(fg.value, bg.value, pow), FontSizeClass(p.fontPx))
  }

  /** The fill the pass draws for rect r of a text node under parent p. */
  function PaintFor(p: Parent, r: Rect, v: Viewport, opacity: real, pow: real -> real): Paint
    requires IsGammaPow(pow)
  {
    Paint(r.left + v.scrollX, r.top + v.scrollY, r.width, r.height,
          HeatmapColor(LevelName(NodeLevel(p, pow)), opacity))
  }

  /** Black text, rgb(0,0,0), whose parent is painted #ffffff: ratio 21,
      tier aaa at any font size, so its rects are painted blue. */
  lemma BlackTextOnWhiteIsBlue(p: Parent, r: Rect, v: Viewport, opacity: real, pow: real -> real)
    requires IsGammaPow(pow)
    requires p.color == "rgb(0,0,0)" && |p.path| >= 1 && p.path[0] == Element("#ffffff", false)
    ensures NodeLevel(p, pow) == AAA
    ensures PaintFor(p, r, v, opacity, pow).color == Rgba(AaaColor, opacity)
  {
    BlackOnWhiteIsBlue(pow, FontSizeClass(p.fontPx), opacity);
    assert NodeLevel(p, pow) == AAA by {
      WhiteBackgroundExample(p.path);
      RgbBlackExample();
    }
  }

  lemma WhiteBackgroundExample(path: seq<Element>)
    requires |path| >= 1 && path[0] == Element("#ffffff", false)
    ensures EffectiveBackground(path) == Some(White)
  {
    assert IsPainted(path[0].background);
    WhiteHexExample();
  }

  /** The state of a pass: the fills so far and the drawnRects set. */
  datatype Pass = Pass(paints: seq<Paint>, drawn: set<Key>)

  /** One iteration of the inner loop. */
  function PaintRect(p: Parent, r: Rect, v: Viewport, opacity: real, pow: real -> real, acc: Pass): Pass
    requires IsGammaPow(pow)
  {
    if !Drawable(r, v) then acc
    else
      var q := PaintFor(p, r, v, opacity, pow);
      if KeyOf(q) in acc.drawn then acc
      else Pass(acc.paints + [q], acc.drawn + {KeyOf(q)})
  }

  /** The inner loop over the rects of one text node. */
  function PaintRects(p: Parent, rects: seq<Rect>, v: Viewport, opacity: real, pow: real -> real, acc: Pass): Pass
    requires IsGammaPow(pow)
    decreases |rects|
  {
    if rects == [] then acc
    else PaintRects(p, rects[1..], v, opacity, pow, PaintRect(p, rects[0], v, opacity, pow, acc))
  }

  /** The outer loop over the text nodes in document order. */
  function PaintNodes(nodes: seq<TextNode>, v: Viewport, opacity: real, pow: real -> real, acc: Pass): Pass
    requires IsGammaPow(pow)
    decreases |nodes|
  {
    if nodes == [] then acc
    else
      var n := nodes[0];
      var next := if Scanned(n) then PaintRects(n.parent.value, n.rects.value, v, opacity, pow, acc) else acc;
      PaintNodes(nodes[1..], v, opacity, pow, next)
  }

  /** The fills of one scan pass, starting from an empty drawnRects. */
  function ScanPaints(nodes: seq<TextNode>, v: Viewport, opacity: real, pow: real -> real): seq<Paint>
    requires IsGammaPow(pow)
  {
    PaintNodes(nodes, v, opacity, pow, Pass([], {})).paints
  }

  /** The filter, de-duplication and paint loop of scanForContrastIssues:
      the outer loop over the text nodes. */
  method ScanPass(nodes: seq<TextNode>, v: Viewport, opacity: real, pow: real -> real) returns (paints: seq<Paint>)
    requires IsGammaPow(pow)
    ensures paints == ScanPaints(nodes, v, opacity, pow)
  {
    paints := [];
    var drawn: set<Key> := {};
    var i := 0;
    while i < |nodes|
      invariant 0 <= i <= |nodes|
      invariant PaintNodes(nodes[i..], v, opacity, pow, Pass(paints, drawn)) == PaintNodes(nodes, v, opacity, pow, Pass([], {}))
    {
      var n := nodes[i];
      assert nodes[i..][0] == n && nodes[i..][1..] == nodes[i + 1..];
      if Trim(n.text) != [] && n.parent.Some? && n.parent.value.display != "none" && n.rects.Some? {
        paints, drawn := PaintNodeRects(n.parent.value, n.rects.value, v, opacity, pow, paints, drawn);
      }
      i := i + 1;
    }
    assert nodes[|nodes|..] == [];
  }

  /** The inner loop over the client rects of one text node, which skips
      empty and off-screen rects and keys already in drawnRects. */
  method PaintNodeRects(p: Parent, rects: seq<Rect>, v: Viewport, opacity: real, pow: real -> real,
                        paints0: seq<Paint>, drawn0: set<Key>) returns (paints: seq<Paint>, drawn: set<Key>)
    requires IsGammaPow(pow)
    ensures Pass(paints, drawn) == PaintRects(p, rects, v, opacity, pow, Pass(paints0, drawn0))
  {
    paints, drawn := paints0, drawn0;
    var j := 0;
    while j < |rects|
      invariant 0 <= j <= |rects|
      invariant PaintRects(p, rects[j..], v, opacity, pow, Pass(paints, drawn)) == PaintRects(p, rects, v, opacity, pow, Pass(paints0, drawn0))
    {
      var r := rects[j];
      assert rects[j..][0] == r && rects[j..][1..] == rects[j + 1..];
      if r.width != 0.0 && r.height != 0.0 && InViewport(r, v) {
        var docLeft := r.left + v.scrollX;
        var docTop := r.top + v.scrollY;
        var key := RectKey(docLeft, docTop, r.width, r.height);
        if key !in drawn {
          drawn := drawn + {key};
          var q := Fill(p, r, v, opacity, pow);
          paints := paints + [q];
        }
      }
      j := j + 1;
    }
    assert rects[|rects|..] == [];
  }

  /** The colours, ratio, tier and fill of one rect. */
  method Fill(p: Parent, r: Rect, v: Viewport, opacity: real, pow: real -> real) returns (q: Paint)
    requires IsGammaPow(pow)
    ensures q == PaintFor(p, r, v, opacity, pow)
  {
    var fg := ParseColor(p.color);
    var bg := EffectiveBackgroundColor(p.path);
    var level;
    if fg.None? || bg.None? {
      level := Fail;
    } else {
      var ratio := ContrastRatio(fg.value, bg.value, pow);
      level := WcagLevel(ratio, FontSizeClass(p.fontPx));
    }
    var color := HeatmapColor(LevelName(level), opacity);
    q := Paint(r.left + v.scrollX, r.top + v.scrollY, r.width, r.height, color);
  }

  // ---------------------------------------------------------------------
  // Properties of a pass

  /** No two fills share a rounded key. */
  predicate DistinctKeys(ps: seq<Paint>) {
    forall i, j :: 0 <= i < j < |ps| ==> KeyOf(ps[i]) != KeyOf(ps[j])
  }

  function PaintKeys(ps: seq<Paint>): set<Key> {
    set q | q in ps :: KeyOf(q)
  }

  /** drawnRects holds exactly the keys of the fills, which are distinct. */
  predicate Consistent(acc: Pass) {
    DistinctKeys(acc.paints) && acc.drawn == PaintKeys(acc.paints)
  }

  lemma PaintRectConsistent(p: Parent, r: Rect, v: Viewport, opacity: real, pow: real -> real, acc: Pass)
    requires IsGammaPow(pow) && Consistent(acc)
    ensures Consistent(PaintRect(p, r, v, opacity, pow, acc))
  {
    if Drawable(r, v) {
      var q := PaintFor(p, r, v, opacity, pow);
      if KeyOf(q) !in acc.drawn {
        var ps := acc.paints + [q];
        forall i, j | 0 <= i < j < |ps| ensures KeyOf(ps[i]) != KeyOf(ps[j]) {
          if j == |ps| - 1 {
            assert ps[i] in acc.paints;
          }
        }
        assert PaintKeys(ps) == PaintKeys(acc.paints) + {KeyOf(q)} by {
          assert forall x :: x in ps <==> x in acc.paints || x == q;
        }
      }
    }
  }

  lemma {:induction false} PaintRectsConsistent(p: Parent, rects: seq<Rect>, v: Viewport, opacity: real, pow: real -> real, acc: Pass)
    requires IsGammaPow(pow) && Consistent(acc)
    ensures Consistent(PaintRects(p, rects, v, opacity, pow, acc))
    decreases |rects|
  {
    if rects != [] {
      PaintRectConsistent(p, rects[0], v, opacity, pow, acc);
      PaintRectsConsistent(p, rects[1..], v, opacity, pow, PaintRect(p, rects[0], v, opacity, pow, acc));
    }
  }

  lemma {:induction false} PaintNodesConsistent(nodes: seq<TextNode>, v: Viewport, opacity: real, pow: real -> real, acc: Pass)
    requires IsGammaPow(pow) && Consistent(acc)
    ensures Consistent(PaintNodes(nodes, v, opacity, pow, acc))
    decreases |nodes|
  {
    if nodes != [] {
      var n := nodes[0];
      if Scanned(n) {
        PaintRectsConsistent(n.parent.value, n.rects.value, v, opacity, pow, acc);
        PaintNodesConsistent(nodes[1..], v, opacity, pow, PaintRects(n.parent.value, n.rects.value, v, opacity, pow, acc));
      } else {
        PaintNodesConsistent(nodes[1..], v, opacity, pow, acc);
      }
    }
  }

  /** Within one pass a rounded rectangle is painted at most once. */
  lemma ScanKeysDistinct(nodes: seq<TextNode>, v: Viewport, opacity: real, pow: real -> real)
    requires IsGammaPow(pow)
    ensures DistinctKeys(ScanPaints(nodes, v, opacity, pow))
  {
    assert Consistent(Pass([], {}));
    PaintNodesConsistent(nodes, v, opacity, pow, Pass([], {}));
  }

  /** q is the fill of a drawable rect of text node n. */
  predicate FromNode(q: Paint, n: TextNode, v: Viewport, opacity: real, pow: real -> real)
    requires IsGammaPow(pow)
  {
    Scanned(n) &&
    exists j :: 0 <= j < |n.rects.value| && Drawable(n.rects.value[j], v) &&
      q == PaintFor(n.parent.value, n.rects.value[j], v, opacity, pow)
  }

  /** Every fill so far comes from a drawable rect of one of the nodes. */
  ghost predicate FromNodes(ps: seq<Paint>, nodes: seq<TextNode>, v: Viewport, opacity: real, pow: real -> real)
    requires IsGammaPow(pow)
  {
    forall q :: q in ps ==> exists n :: n in nodes && FromNode(q, n, v, opacity, pow)
  }

  lemma {:induction false} PaintRectsFrom(n: TextNode, rects: seq<Rect>, nodes: seq<TextNode>, v: Viewport, opacity: real, pow: real -> real, acc: Pass)
    requires IsGammaPow(pow) && Scanned(n) && n in nodes
    requires |rects| <= |n.rects.value| && rects == n.rects.value[|n.rects.value| - |rects|..]
    requires FromNodes(acc.paints, nodes, v, opacity, pow)
    ensures FromNodes(PaintRects(n.parent.value, rects, v, opacity, pow, acc).paints, nodes, v, opacity, pow)
    decreases |rects|
  {
    if rects != [] {
      var p := n.parent.value;
      var k := |n.rects.value| - |rects|;
      assert rects[0] == n.rects.value[k];
      var next := PaintRect(p, rects[0], v, opacity, pow, acc);
      assert FromNodes(next.paints, nodes, v, opacity, pow) by {
        if Drawable(rects[0], v) {
          var q := PaintFor(p, rects[0], v, opacity, pow);
          assert FromNode(q, n, v, opacity, pow);
        }
      }
      assert rects[1..] == n.rects.value[|n.rects.value| - |rects[1..]|..];
      PaintRectsFrom(n, rects[1..], nodes, v, opacity, pow, next);
    }
  }

  lemma {:induction false} PaintNodesFrom(rest: seq<TextNode>, nodes: seq<TextNode>, v: Viewport, opacity: real, pow: real -> real, acc: Pass)
    requires IsGammaPow(pow)
    requires forall n :: n in rest ==> n in nodes
    requires FromNodes(acc.paints, nodes, v, opacity, pow)
    ensures FromNodes(PaintNodes(rest, v, opacity, pow, acc).paints, nodes, v, opacity, pow)
    decreases |rest|
  {
    if rest != [] {
      var n := rest[0];
      assert n in nodes;
      var next := acc;
      if Scanned(n) {
        assert n.rects.value == n.rects.value[0..];
        PaintRectsFrom(n, n.rects.value, nodes, v, opacity, pow, acc);
        next := PaintRects(n.parent.value, n.rects.value, v, opacity, pow, acc);
      }
      assert forall m :: m in rest[1..] ==> m in nodes;
      PaintNodesFrom(rest[1..], nodes, v, opacity, pow, next);
    }
  }

  /** Every fill of a pass is the fill of a drawable rect of a scanned
      text node: placed at the rect in document coordinates and coloured
      by the tier of its parent with the current opacity. */
  lemma ScanPaintsSound(nodes: seq<TextNode>, v: Viewport, opacity: real, pow: real -> real)
    requires IsGammaPow(pow)
    ensures forall q :: q in ScanPaints(nodes, v, opacity, pow) ==>
      exists n :: n in nodes && FromNode(q, n, v, opacity, pow)
  {
    PaintNodesFrom(nodes, nodes, v, opacity, pow, Pass([], {}));
  }

  /** Every fill of a pass uses the current opacity. */
  lemma ScanUsesOpacity(nodes: seq<TextNode>, v: Viewport, opacity: real, pow: real -> real)
    requires IsGammaPow(pow)
    ensures forall q :: q in ScanPaints(nodes, v, opacity, pow) ==> q.color.alpha == opacity
  {
    ScanPaintsSound(nodes, v, opacity, pow);
  }

  /** The keys of the drawable rects among `rects`. */
  function RectKeys(rects: seq<Rect>, v: Viewport): set<Key> {
    set r | r in rects && Drawable(r, v) :: RectKey(r.left + v.scrollX, r.top + v.scrollY, r.width, r.height)
  }

  /** The keys of the drawable rects of the scanned nodes. */
  function NodeKeys(nodes: seq<TextNode>, v: Viewport): set<Key>
    decreases |nodes|
  {
    if nodes == [] then {}
    else (if Scanned(nodes[0]) then RectKeys(nodes[0].rects.value, v) else {}) + NodeKeys(nodes[1..], v)
  }

  lemma {:induction false} PaintRectsKeys(p: Parent, rects: seq<Rect>, v: Viewport, opacity: real, pow: real -> real, acc: Pass)
    requires IsGammaPow(pow)
    ensures PaintRects(p, rects, v, opacity, pow, acc).drawn == acc.drawn + RectKeys(rects, v)
    decreases |rects|
  {
    if rects != [] {
      var next := PaintRect(p, rects[0], v, opacity, pow, acc);
      assert next.drawn == acc.drawn + RectKeys([rects[0]], v) by {
        assert KeyOf(PaintFor(p, rects[0], v, opacity, pow)) == RectKey(rects[0].left + v.scrollX, rects[0].top + v.scrollY, rects[0].width, rects[0].height);
      }
      PaintRectsKeys(p, rects[1..], v, opacity, pow, next);
      RectKeysSplit(rects, v);
    }
  }

  lemma RectKeysSplit(rects: seq<Rect>, v: Viewport)
    requires rects != []
    ensures RectKeys(rects, v) == RectKeys([rects[0]], v) + RectKeys(rects[1..], v)
  {
    assert forall r :: r in rects <==> r == rects[0] || r in rects[1..];
  }

  lemma {:induction false} PaintNodesKeys(nodes: seq<TextNode>, v: Viewport, opacity: real, pow: real -> real, acc: Pass)
    requires IsGammaPow(pow)
    ensures PaintNodes(nodes, v, opacity, pow, acc).drawn == acc.drawn + NodeKeys(nodes, v)
    decreases |nodes|
  {
    if nodes != [] {
      var n := nodes[0];
      if Scanned(n) {
        PaintRectsKeys(n.parent.value, n.rects.value, v, opacity, pow, acc);
        PaintNodesKeys(nodes[1..], v, opacity, pow, PaintRects(n.parent.value, n.rects.value, v, opacity, pow, acc));
      } else {
        PaintNodesKeys(nodes[1..], v, opacity, pow, acc);
      }
    }
  }

  /** The pass paints exactly one fill for each distinct rounded key among
      the drawable rects of the scanned text nodes. */
  lemma ScanCoversDrawable(nodes: seq<TextNode>, v: Viewport, opacity: real, pow: real -> real)
    requires IsGammaPow(pow)
    ensures PaintKeys(ScanPaints(nodes, v, opacity, pow)) == NodeKeys(nodes, v)
    ensures DistinctKeys(ScanPaints(nodes, v, opacity, pow))
  {
    var start := Pass([], {});
    assert Consistent(start);
    PaintNodesConsistent(nodes, v, opacity, pow, start);
    PaintNodesKeys(nodes, v, opacity, pow, start);
  }
}
