/**
 * The scroll-reveal directive. An element starts hidden (opacity 0, and
 * offset by 50px for the slide animations); once its top edge is within
 * the upper 80% of the viewport and its bottom edge has not scrolled past
 * the top, it is revealed (opacity 1, no offset). The reveal is a one-way
 * latch: once it has happened, scroll events are ignored.
 *
 * The pure part (Visible, InitStyle, Revealed, Check, Scroll, ScrollAll)
 * is the specification; the class ScrollAnimationDirective holds the
 * directive's state and the element's inline style and updates them.
 */
module ScrollAnimation {
  import opened Wrappers
  import Decimal

  datatype AnimationType = FadeIn | SlideInLeft | SlideInRight | SlideInUp

  /**
   * What a visibility check reads: the element's bounding rectangle and
   * the window's innerHeight and the document element's clientHeight.
   */
  datatype Layout = Layout(top: int, bottom: int, innerHeight: int, clientHeight: int)

  /** An element's inline style: property name to value. */
  type Style = map<string, string>

  /** The directive's latch and its element's style. */
  datatype Element = Element(hasAnimated: bool, style: Style)

  const RevealedTransform: string := "translate(0, 0)"

  /** The transform an element starts from; a fade does not set one. */
  function InitialTransform(t: AnimationType): (r: Option<string>)
    ensures r.None? <==> t == FadeIn
  {
    match t
    case SlideInLeft => Some("translateX(-50px)")
    case SlideInRight => Some("translateX(50px)")
    case SlideInUp => Some("translateY(50px)")
    case FadeIn => None
  }

  /** Different slide directions start from different transforms, none of them the revealed one. */
  lemma InitialTransformDistinct(a: AnimationType, b: AnimationType)
    ensures InitialTransform(a) == InitialTransform(b) ==> a == b
    ensures InitialTransform(a) != Some(RevealedTransform)
  {
  }

  const TransitionPrefix: string := "all 0.8s ease-out "

  /** The transition, which starts after `delay` milliseconds. */
  function Transition(delay: int): (r: string)
    ensures |r| >= |TransitionPrefix| + 3
    ensures r[..|TransitionPrefix|] == TransitionPrefix && r[|r| - 2..] == "ms"
  {
    TransitionPrefix + Decimal.IntToString(delay) + "ms"
  }

  /** The delay is recoverable from the transition: it is embedded in decimal. */
  lemma TransitionRoundTrip(delay: int)
    ensures Decimal.IsInteger(Transition(delay)[|TransitionPrefix|..|Transition(delay)| - 2])
    ensures Decimal.ParseInt(Transition(delay)[|TransitionPrefix|..|Transition(delay)| - 2]) == delay
  {
    var r := Transition(delay);
    assert r[|TransitionPrefix|..|r| - 2] == Decimal.IntToString(delay);
    Decimal.IntToStringRoundTrip(delay);
  }

  /** innerHeight, or clientHeight when innerHeight is 0 (falsy). */
  function WindowHeight(g: Layout): (h: int)
    ensures g.innerHeight != 0 ==> h == g.innerHeight
    ensures g.innerHeight == 0 ==> h == g.clientHeight
  {
    if g.innerHeight != 0 then g.innerHeight else g.clientHeight
  }

  /**
   * top <= 0.8 * windowHeight and bottom >= 0, evaluated on integers by
   * cross-multiplying by 5; the result agrees with the comparison against 0.8.
   */
  function Visible(g: Layout): (b: bool)
    ensures b <==> (g.top as real <= WindowHeight(g) as real * 0.8 && g.bottom >= 0)
  {
    5 * g.top <= 4 * WindowHeight(g) && g.bottom >= 0
  }

  /** An element at the bottom edge of a viewport is not visible; one at 79% of it is. */
  lemma VisibilityBand(g: Layout)
    requires WindowHeight(g) > 0 && g.bottom >= 0
    ensures g.top == WindowHeight(g) ==> !Visible(g)
    ensures g.top <= 0 ==> Visible(g)
    ensures 100 * g.top <= 79 * WindowHeight(g) ==> Visible(g)
  {
  }

  /** `a` and `b` agree on every property outside `keys`. */
  ghost predicate SameExcept(a: Style, b: Style, keys: set<string>)
  {
    forall k :: k !in keys ==> (k in a <==> k in b) && (k in a ==> a[k] == b[k])
  }

  /** ngOnInit's writes: hidden, the transition, and the initial transform. */
  function InitStyle(style: Style, t: AnimationType, delay: int): (r: Style)
    ensures "opacity" in r && r["opacity"] == "0"
    ensures "transition" in r && r["transition"] == Transition(delay)
    ensures InitialTransform(t).Some? ==> "transform" in r && r["transform"] == InitialTransform(t).value
    ensures InitialTransform(t).None? ==> SameExcept(r, style, {"opacity", "transition"})
    ensures SameExcept(r, style, {"opacity", "transition", "transform"})
  {
    var hidden := style["opacity" := "0"]["transition" := Transition(delay)];
    match InitialTransform(t)
    case Some(transform) => hidden["transform" := transform]
    case None => hidden
  }

  /** animateIn's writes: visible and not offset; the transition is kept. */
  function Revealed(style: Style): (r: Style)
    ensures "opacity" in r && r["opacity"] == "1"
    ensures "transform" in r && r["transform"] == RevealedTransform
    ensures SameExcept(r, style, {"opacity", "transform"})
  {
    style["opacity" := "1"]["transform" := RevealedTransform]
  }

  lemma RevealedIdempotent(style: Style)
    ensures Revealed(Revealed(style)) == Revealed(style)
  {
  }

  /** checkVisibility: reveal when visible, whatever the latch says. */
  function Check(e: Element, g: Layout): (r: Element)
    ensures r.hasAnimated == (e.hasAnimated || Visible(g))
    ensures r.style == if Visible(g) then Revealed(e.style) else e.style
  {
    if Visible(g) then Element(true, Revealed(e.style)) else e
  }

  /** A second check at the same layout changes nothing further. */
  lemma CheckIdempotent(e: Element, g: Layout)
    ensures Check(Check(e, g), g) == Check(e, g)
  {
  }

  /** onScroll: check only while the element has not been revealed. */
  function Scroll(e: Element, g: Layout): (r: Element)
    ensures e.hasAnimated ==> r == e
    ensures r.hasAnimated == (e.hasAnimated || Visible(g))
    ensures !e.hasAnimated && !Visible(g) ==> r == e
    ensures !e.hasAnimated && Visible(g) ==> r.style == Revealed(e.style)
  {
    if !e.hasAnimated then Check(e, g) else e
  }

  /** ngOnInit: the initial style, then an immediate check. */
  function Init(e: Element, t: AnimationType, delay: int, g: Layout): (r: Element)
    ensures r.hasAnimated == (e.hasAnimated || Visible(g))
    ensures "opacity" in r.style && r.style["opacity"] == if Visible(g) then "1" else "0"
    ensures "transition" in r.style && r.style["transition"] == Transition(delay)
    ensures Visible(g) ==> "transform" in r.style && r.style["transform"] == RevealedTransform
    ensures !Visible(g) && InitialTransform(t).Some? ==>
              "transform" in r.style && r.style["transform"] == InitialTransform(t).value
    ensures !Visible(g) ==> r.style == InitStyle(e.style, t, delay)
    ensures SameExcept(r.style, e.style, {"opacity", "transition", "transform"})
  {
    Check(Element(e.hasAnimated, InitStyle(e.style, t, delay)), g)
  }

  /** The element after a sequence of scroll events, oldest first. */
  function ScrollAll(e: Element, gs: seq<Layout>): (r: Element)
    ensures e.hasAnimated ==> r == e
    ensures !e.hasAnimated && !r.hasAnimated ==> r == e
    decreases |gs|
  {
    if gs == [] then e else Scroll(ScrollAll(e, gs[..|gs| - 1]), gs[|gs| - 1])
  }

  /**
   * Over any sequence of scroll events the element is revealed exactly when
   * it was already, or some event found it visible; it is revealed once,
   * from the style it had, and an element revealed before is left as it was.
   */
  lemma {:induction false} ScrollAllLatch(e: Element, gs: seq<Layout>)
    ensures e.hasAnimated ==> ScrollAll(e, gs) == e
    ensures ScrollAll(e, gs).hasAnimated <==> e.hasAnimated || exists i :: 0 <= i < |gs| && Visible(gs[i])
    ensures !e.hasAnimated ==>
              ScrollAll(e, gs).style == if ScrollAll(e, gs).hasAnimated then Revealed(e.style) else e.style
    decreases |gs|
  {
    if gs != [] {
      var prefix := gs[..|gs| - 1];
      ScrollAllLatch(e, prefix);
      if exists i :: 0 <= i < |prefix| && Visible(prefix[i]) {
        var i :| 0 <= i < |prefix| && Visible(prefix[i]);
        assert gs[i] == prefix[i];
      }
      if exists i :: 0 <= i < |gs| && Visible(gs[i]) {
        var i :| 0 <= i < |gs| && Visible(gs[i]);
        if i < |prefix| {
          assert prefix[i] == gs[i];
        }
      }
    }
  }

  class ScrollAnimationDirective {
    const animationType: AnimationType
    const animationDelay: int
    var hasAnimated: bool
    /** The host element's inline style, written through the renderer. */
    var style: Style

    function State(): Element
      reads this
    {
      Element(hasAnimated, style)
    }

    /** Attach to an element whose inline style is `style`. */
    constructor(animationType: AnimationType, animationDelay: int, style: Style)
      ensures this.animationType == animationType && this.animationDelay == animationDelay
      ensures !hasAnimated && this.style == style
    {
      this.animationType := animationType;
      this.animationDelay := animationDelay;
      hasAnimated := false;
      this.style := style;
    }

    /** Attach with the inputs left at their defaults: a fade, without delay. */
    constructor WithDefaults(style: Style)
      ensures animationType == FadeIn && animationDelay == 0
      ensures !hasAnimated && this.style == style
    {
      animationType := FadeIn;
      animationDelay := 0;
      hasAnimated := false;
      this.style := style;
    }

    /** The renderer's setStyle on the host element. */
    method SetStyle(name: string, value: string)
      modifies this`style
      ensures style == old(style)[name := value]
    {
      style := style[name := value];
    }

    method OnInit(g: Layout)
      modifies this
      ensures State() == Init(old(State()), animationType, animationDelay, g)
    {
      SetStyle("opacity", "0");
      SetStyle("transition", Transition(animationDelay));
      match InitialTransform(animationType) {
        case Some(transform) => SetStyle("transform", transform);
        case None =>
      }
      CheckVisibility(g);
    }

    method OnScroll(g: Layout)
      modifies this
      ensures old(hasAnimated) ==> unchanged(this)
      ensures State() == Scroll(old(State()), g)
    {
      if !hasAnimated {
        CheckVisibility(g);
      }
    }

    method CheckVisibility(g: Layout)
      modifies this
      ensures old(hasAnimated) ==> hasAnimated
      ensures State() == Check(old(State()), g)
    {
      if Visible(g) {
        AnimateIn();
      }
    }

    method AnimateIn()
      modifies this
      ensures hasAnimated
      ensures style == Revealed(old(style))
    {
      hasAnimated := true;
      SetStyle("opacity", "1");
      SetStyle("transform", RevealedTransform);
    }

    /** A run of scroll events, oldest first. */
    method ScrollEvents(gs: seq<Layout>)
      modifies this
      ensures old(hasAnimated) ==> hasAnimated
      ensures State() == ScrollAll(old(State()), gs)
    {
      ghost var start := State();
      var k := 0;
      while k < |gs|
        invariant 0 <= k <= |gs|
        invariant State() == ScrollAll(start, gs[..k])
      {
        assert gs[..k + 1][..k] == gs[..k];
        OnScroll(gs[k]);
        k := k + 1;
      }
      assert gs[..k] == gs;
      ScrollAllLatch(start, gs);
    }
  }

  /** An element already inside the band when it mounts is revealed without any scroll event. */
  method MountInView(t: AnimationType, delay: int, g: Layout) returns (revealed: bool, opacity: string)
    requires Visible(g)
    ensures revealed && opacity == "1"
  {
    var d := new ScrollAnimationDirective(t, delay, map[]);
    d.OnInit(g);
    revealed := d.hasAnimated;
    opacity := d.style["opacity"];
  }

  /**
   * An element mounted below the band stays hidden until a scroll event
   * brings its top to 79% of the viewport, and later events change nothing.
   */
  method ScrollIntoView(h: int, later: seq<Layout>) returns (before: bool, after: bool, final: bool)
    requires h > 0
    ensures !before && after && final
  {
    var d := new ScrollAnimationDirective(SlideInUp, 0, map[]);
    d.OnInit(Layout(h, h + 10, h, h));
    before := d.hasAnimated;
    d.OnScroll(Layout(79 * h / 100, 79 * h / 100 + 10, h, h));
    after := d.hasAnimated;
    d.ScrollEvents(later);
    final := d.hasAnimated;
  }
}
