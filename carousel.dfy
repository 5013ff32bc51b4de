/** The help page's card carousel: one active card, the others fanned out
    to both sides of it, blurred and sunk by their distance from it; the
    buttons, the arrow keys and horizontal swipes move the active card by one.
    Pixel positions are whole numbers here, and the measured card width is a
    parameter of every step that redraws. */
module Carousel {
  import opened Util

  /** Gap between neighbouring cards, in px. */
  const GAP := 40
  /** Card width used when the first card measures 0 px wide. */
  const FALLBACK_CARD_W := 300
  /** A swipe must go further than this, in px, to change the card. */
  const SWIPE_THRESHOLD := 60
  /** Cards further than this from the active one are invisible. */
  const VISIBLE_DISTANCE := 3
  /** Stacking order of the active card. */
  const TOP_Z := 100
  /** Largest blur, in px. */
  const MAX_BLUR := 6

  /** The integer part of one card's style: its stacking order, its blur,
      whether it is fully transparent, and its horizontal shift. */
  datatype CardStyle = CardStyle(zIndex: int, blurPx: nat, hidden: bool, offsetX: int)

  datatype Key = ArrowRight | ArrowLeft | OtherKey

  /** `items[0].offsetWidth || 300`. */
  function CardWidth(measured: nat): (w: nat)
    ensures w > 0
    ensures measured > 0 ==> w == measured
  {
    if measured == 0 then FALLBACK_CARD_W else measured
  }

  /** The style `render(extra)` gives card i. */
  function StyleFor(i: int, active: int, step: int, extra: int): CardStyle
  {
    var dx := i - active;
    var dist := Abs(dx);
    CardStyle(TOP_Z - dist, if dist * 2 < MAX_BLUR then dist * 2 else MAX_BLUR, dist > VISIBLE_DISTANCE,
              dx * step + extra)
  }

  /** The drawing of all `n` cards. */
  function Layout(n: nat, active: int, step: int, extra: int): (styles: seq<CardStyle>)
    ensures |styles| == n
  {
    seq(n, i requires 0 <= i < n => StyleFor(i, active, step, extra))
  }

  /** The active card is the only one on top and the only sharp one; blur
      grows by 2 px per card of distance up to 6 px; cards more than three
      away are hidden; the active card sits at the drag offset and the others
      are evenly spaced, left to right in card order. These hold for every
      card count, drag offset and card step. */
  lemma LayoutProperties(n: nat, active: int, step: int, extra: int, i: nat, j: nat)
    requires i < n && j < n
    ensures var s := Layout(n, active, step, extra);
      && s[i].zIndex <= TOP_Z
      && (s[i].zIndex == TOP_Z <==> i == active)
      && s[i].blurPx <= MAX_BLUR
      && (s[i].blurPx == 0 <==> i == active)
      && (Abs(i - active) <= 3 ==> s[i].blurPx == 2 * Abs(i - active))
      && (s[i].hidden <==> Abs(i - active) > VISIBLE_DISTANCE)
      && (i == active ==> s[i].offsetX == extra)
      && s[j].offsetX - s[i].offsetX == (j - i) * step
      && (Abs(i - active) < Abs(j - active) ==> s[j].zIndex < s[i].zIndex)
  {
    assert s2: Layout(n, active, step, extra)[j].offsetX - Layout(n, active, step, extra)[i].offsetX
      == (j - active) * step - (i - active) * step;
    assert (j - active) * step - (i - active) * step == (j - i) * step;
  }

  class Carousel {
    /** Number of cards. */
    const count: nat
    /** Index of the active card. */
    var active: int
    /** Measured card width (0 until a card has been measured). */
    var cardW: int
    /** Distance between neighbouring card centres. */
    var step: int
    var dragging: bool
    var startX: int
    var lastDX: int
    /** The styles of the cards as last drawn. */
    var styles: seq<CardStyle>

    /** The active card is a card (or 0 with no cards), the step is the
        card width plus the gap once measured, and a drawing has one style
        per card. */
    ghost predicate Valid()
      reads this
    {
      && 0 <= active
      && (count == 0 ==> active == 0)
      && (count > 0 ==> active < count && cardW > 0 && step == cardW + GAP)
      && |styles| == count
    }

    /** `render(extra)`, with the first card's measured width. With no cards
        nothing is measured and nothing is drawn. */
    method Render(extra: int, measured: nat)
      requires 0 <= active && (count == 0 ==> active == 0) && (count > 0 ==> active < count)
      modifies this
      ensures Valid()
      ensures active == old(active) && dragging == old(dragging)
      ensures startX == old(startX) && lastDX == old(lastDX)
      ensures count == 0 ==> cardW == old(cardW) && step == old(step)
      ensures count > 0 ==> cardW == CardWidth(measured) && step == CardWidth(measured) + GAP
      ensures count > 0 ==> styles == Layout(count, active, step, extra)
    {
      if count > 0 {
        cardW := CardWidth(measured);
        step := cardW + GAP;
      }
      var drawn: seq<CardStyle> := [];
      for i := 0 to count
        invariant |drawn| == i
        invariant forall k :: 0 <= k < i ==> drawn[k] == StyleFor(k, active, step, extra)
      {
        var dx := i - active;
        var dist := if dx < 0 then -dx else dx;
        var blur := if dist * 2 < MAX_BLUR then dist * 2 else MAX_BLUR;
        drawn := drawn + [CardStyle(TOP_Z - dist, blur, dist > VISIBLE_DISTANCE, dx * step + extra)];
      }
      styles := drawn;
    }

    /** The page load: the first drawing, with the first card active. */
    constructor (count: nat, measured: nat)
      ensures Valid()
      ensures this.count == count && active == 0 && !dragging && startX == 0 && lastDX == 0
      ensures count > 0 ==> styles == Layout(count, 0, CardWidth(measured) + GAP, 0)
    {
      this.count := count;
      active := 0;
      cardW := 0;
      step := 0;
      dragging := false;
      startX := 0;
      lastDX := 0;
      styles := [];
      new;
      Render(0, measured);
    }

    /** `goNext`: one card on, redrawn at rest; at the last card nothing
        happens, not even a redraw. */
    method GoNext(measured: nat)
      requires Valid()
      modifies this
      ensures Valid()
      ensures dragging == old(dragging) && startX == old(startX) && lastDX == old(lastDX)
      ensures old(active) < count - 1 ==>
        active == old(active) + 1 && step == CardWidth(measured) + GAP && styles == Layout(count, active, step, 0)
      ensures old(active) >= count - 1 ==>
        active == old(active) && styles == old(styles) && step == old(step) && cardW == old(cardW)
    {
      if active < count - 1 {
        active := active + 1;
        Render(0, measured);
      }
    }

    /** `goPrev`: one card back, redrawn at rest; at the first card nothing
        happens. */
    method GoPrev(measured: nat)
      requires Valid()
      modifies this
      ensures Valid()
      ensures dragging == old(dragging) && startX == old(startX) && lastDX == old(lastDX)
      ensures old(active) > 0 ==>
        active == old(active) - 1 && step == CardWidth(measured) + GAP && styles == Layout(count, active, step, 0)
      ensures old(active) == 0 ==>
        active == old(active) && styles == old(styles) && step == old(step) && cardW == old(cardW)
    {
      if active > 0 {
        active := active - 1;
        Render(0, measured);
      }
    }

    /** A key press: the right arrow moves on, the left arrow moves back. */
    method KeyDown(key: Key, measured: nat)
      requires Valid()
      modifies this
      ensures Valid()
      ensures dragging == old(dragging) && startX == old(startX) && lastDX == old(lastDX)
      ensures key == ArrowRight ==> active == (if old(active) < count - 1 then old(active) + 1 else old(active))
      ensures key == ArrowLeft ==> active == (if old(active) > 0 then old(active) - 1 else old(active))
      ensures key == OtherKey ==> active == old(active)
      ensures active != old(active) ==> styles == Layout(count, active, CardWidth(measured) + GAP, 0)
      ensures active == old(active) ==> styles == old(styles) && step == old(step) && cardW == old(cardW)
    {
      if key == ArrowRight { GoNext(measured); }
      if key == ArrowLeft { GoPrev(measured); }
    }

    /** Pointer (or touch, or mouse) down at `x`: a drag starts from there. */
    method PointerDown(x: int)
      requires Valid()
      modifies this
      ensures Valid()
      ensures dragging && startX == x && lastDX == 0
      ensures active == old(active) && styles == old(styles) && step == old(step) && cardW == old(cardW)
    {
      dragging := true;
      startX := x;
      lastDX := 0;
    }

    /** Pointer move to `x`: while dragging, the cards follow the finger. */
    method PointerMove(x: int, measured: nat)
      requires Valid()
      modifies this
      ensures Valid()
      ensures active == old(active) && dragging == old(dragging) && startX == old(startX)
      ensures !old(dragging) ==> lastDX == old(lastDX) && styles == old(styles) && step == old(step)
      ensures old(dragging) ==> lastDX == x - startX
      ensures old(dragging) && count > 0 ==> styles == Layout(count, active, CardWidth(measured) + GAP, lastDX)
    {
      if !dragging { return; }
      lastDX := x - startX;
      Render(lastDX, measured);
    }

    /** Pointer up (or cancel): a drag ends; a swipe further than 60 px to
        the left moves on, one to the right moves back, and a shorter one
        snaps the cards back. */
    method PointerUp(measured: nat)
      requires Valid()
      modifies this
      ensures Valid() && !dragging
      ensures startX == old(startX) && lastDX == old(lastDX)
      ensures !old(dragging) ==> active == old(active) && styles == old(styles)
      ensures old(dragging) && Abs(lastDX) > SWIPE_THRESHOLD && lastDX < 0 ==>
        active == (if old(active) < count - 1 then old(active) + 1 else old(active))
      ensures old(dragging) && Abs(lastDX) > SWIPE_THRESHOLD && lastDX > 0 ==>
        active == (if old(active) > 0 then old(active) - 1 else old(active))
      ensures old(dragging) && Abs(lastDX) > SWIPE_THRESHOLD && active != old(active) ==>
        styles == Layout(count, active, CardWidth(measured) + GAP, 0)
      ensures old(dragging) && Abs(lastDX) > SWIPE_THRESHOLD && active == old(active) ==>
        styles == old(styles) && step == old(step) && cardW == old(cardW)
      ensures old(dragging) && Abs(lastDX) <= SWIPE_THRESHOLD ==>
        active == old(active) && (count > 0 ==> styles == Layout(count, active, CardWidth(measured) + GAP, 0))
    {
      if !dragging { return; }
      dragging := false;
      if Abs(lastDX) > SWIPE_THRESHOLD {
        if lastDX < 0 { GoNext(measured); } else { GoPrev(measured); }
      } else {
        Render(0, measured);
      }
    }

    /** A window resize redraws at rest. */
    method Resize(measured: nat)
      requires Valid()
      modifies this
      ensures Valid()
      ensures active == old(active) && dragging == old(dragging)
      ensures startX == old(startX) && lastDX == old(lastDX)
      ensures count > 0 ==> styles == Layout(count, active, CardWidth(measured) + GAP, 0)
    {
      Render(0, measured);
    }
  }
}
