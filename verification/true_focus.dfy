/** Two sentences, one in focus: the focused one is sharp, the other
    blurred, and a frame is placed over the focused one. Outside manual
    mode an interval alternates the focus; in manual mode hovering a
    sentence focuses it. */
module TrueFocus {
  import opened Common

  /** `0 | 1`: which of the two sentences is in focus. */
  type SentenceIndex = i: int | 0 <= i <= 1

  /** The other sentence. */
  function Other(k: SentenceIndex): (o: SentenceIndex)
    ensures o != k
  {
    if k == 0 then 1 else 0
  }

  /** Alternating twice comes back to the same sentence. */
  lemma OtherTwice(k: SentenceIndex)
    ensures Other(Other(k)) == k
  {
  }

  /** The blur radius, in pixels, of `sentence` while `active` is in focus:
      a sentence is sharp exactly when it is the active one or the blur
      amount is 0, and a blurred one has the full blur amount. */
  function Blur(sentence: SentenceIndex, active: SentenceIndex, blurAmount: real): (b: real)
    ensures b == 0.0 <==> sentence == active || blurAmount == 0.0
    ensures b != 0.0 ==> b == blurAmount
  {
    if sentence == active then 0.0 else blurAmount
  }

  /** With a non-zero blur amount, exactly one sentence is sharp: the
      active one. */
  lemma ExactlyOneSharp(active: SentenceIndex, blurAmount: real)
    requires blurAmount != 0.0
    ensures forall k: SentenceIndex :: Blur(k, active, blurAmount) == 0.0 <==> k == active
    ensures Blur(Other(active), active, blurAmount) == blurAmount
  {
  }

  /** A measured box: its page position and size. */
  datatype Rect = Rect(left: real, top: real, width: real, height: real)

  /** The frame's box, relative to the container. */
  datatype FocusRect = FocusRect(x: real, y: real, width: real, height: real)

  /** The frame over `active`, positioned relative to `parent`: moving it by
      the container's origin gives back the sentence's own box. */
  function FocusRectOf(parent: Rect, active: Rect): (f: FocusRect)
    ensures parent.left + f.x == active.left && parent.top + f.y == active.top
    ensures f.width == active.width && f.height == active.height
  {
    FocusRect(active.left - parent.left, active.top - parent.top, active.width, active.height)
  }

  /** Moving the container and the sentence together leaves the frame where
      it is. */
  lemma FocusRectTranslationInvariant(parent: Rect, active: Rect, dx: real, dy: real)
    ensures FocusRectOf(Rect(parent.left + dx, parent.top + dy, parent.width, parent.height),
                        Rect(active.left + dx, active.top + dy, active.width, active.height))
         == FocusRectOf(parent, active)
  {
  }

  class Focus {
    const manualMode: bool
    var activeIndex: SentenceIndex
    /** Whether the alternating interval is installed. */
    var intervalInstalled: bool
    var focusRect: FocusRect

    /** The interval runs exactly when the component is not in manual mode. */
    ghost predicate Valid()
      reads this
    {
      intervalInstalled == !manualMode
    }

    /** The first sentence starts in focus; the frame starts empty at the
        origin, and the interval is installed unless in manual mode. */
    constructor (manualMode: bool)
      ensures Valid() && this.manualMode == manualMode
      ensures activeIndex == 0 && focusRect == FocusRect(0.0, 0.0, 0.0, 0.0)
      ensures intervalInstalled == !manualMode
    {
      this.manualMode := manualMode;
      activeIndex := 0;
      intervalInstalled := !manualMode;
      focusRect := FocusRect(0.0, 0.0, 0.0, 0.0);
    }

    /** One firing of the interval: the focus moves to the other sentence. */
    method Tick()
      requires Valid() && intervalInstalled
      modifies this
      ensures Valid() && activeIndex == Other(old(activeIndex))
      ensures focusRect == old(focusRect) && intervalInstalled == old(intervalInstalled)
    {
      activeIndex := Other(activeIndex);
    }

    /** `handleMouseEnter`: in manual mode the hovered sentence takes the
        focus; otherwise nothing changes. */
    method MouseEnter(index: SentenceIndex)
      requires Valid()
      modifies this
      ensures Valid()
      ensures activeIndex == (if manualMode then index else old(activeIndex))
      ensures focusRect == old(focusRect) && intervalInstalled == old(intervalInstalled)
    {
      if manualMode {
        activeIndex := index;
      }
    }

    /** The effect run after the focus changes: with the container and the
        focused sentence both measured, the frame moves over the sentence;
        if either is missing, the frame stays where it was. */
    method UpdateFocusRect(container: Option<Rect>, sentences: seq<Option<Rect>>)
      requires Valid() && |sentences| == 2
      modifies this
      ensures Valid() && activeIndex == old(activeIndex) && intervalInstalled == old(intervalInstalled)
      ensures container.Some? && sentences[activeIndex].Some? ==>
        focusRect == FocusRectOf(container.value, sentences[activeIndex].value)
      ensures container.None? || sentences[activeIndex].None? ==> focusRect == old(focusRect)
    {
      if container.Some? && sentences[activeIndex].Some? {
        focusRect := FocusRectOf(container.value, sentences[activeIndex].value);
      }
    }
  }

  /** Two firings of the interval bring the focus back. */
  method TwoTicksRestore(f: Focus)
    requires f.Valid() && f.intervalInstalled
    modifies f
    ensures f.Valid() && f.activeIndex == old(f.activeIndex)
  {
    f.Tick();
    f.Tick();
    OtherTwice(old(f.activeIndex));
  }
}
