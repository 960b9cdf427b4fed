/** The hover colour sweep: on hover, every letter of the text is reset to
    the base colour and then, one interval tick at a time, the letters are
    switched to the hover colour in the order given by the component's
    variant. Colours are opaque tokens; timers, the mouse geometry that
    finds the hovered letter, and `Math.random` are inputs or left out. */
module HoverText {
  import opened Common

  type Color = string

  datatype Variant = LeftToRight | CenterOutward | Random | FromCursor

  /** Distance of index `k` from `center`. */
  function Dist(k: int, center: int): nat {
    if k < center then center - k else k - center
  }

  /** `a` comes strictly before `b` when ordering by distance from `center`,
      the left index first at equal distance. */
  predicate Before(a: int, b: int, center: int) {
    Dist(a, center) < Dist(b, center) || (Dist(a, center) == Dist(b, center) && a < b)
  }

  /** What one loop round appends at distance `d`: the left index if it is
      not negative, then the right index if it is below `n`. */
  function Ring(center: int, n: int, d: int): seq<int> {
    (if center - d >= 0 then [center - d] else []) + (if center + d < n then [center + d] else [])
  }

  /** The outward sequence once the loop has handled distances 1 .. k-1. */
  function OutwardPrefix(center: nat, n: nat, k: nat): (p: seq<int>)
    ensures |p| >= 1
  {
    if k <= 1 then [center] else OutwardPrefix(center, n, k - 1) + Ring(center, n, k - 1)
  }

  /** The order of the `center-outward` and `from-cursor` variants. */
  function OutwardOrder(center: nat, n: nat): seq<int> {
    OutwardPrefix(center, n, n)
  }

  /** Builds the outward order with the source's loop over distances. */
  method Outward(center: nat, n: nat) returns (order: seq<int>)
    ensures order == OutwardOrder(center, n)
  {
    order := [center];
    var dist := 1;
    while dist < n
      invariant 1 <= dist <= (if n >= 1 then n else 1)
      invariant order == OutwardPrefix(center, n, dist)
    {
      var left := center - dist;
      var right := center + dist;
      if left >= 0 {
        order := order + [left];
      }
      if right < n {
        order := order + [right];
      }
      dist := dist + 1;
    }
  }

  /** Every index in the outward prefix lies less than `k` away from the centre. */
  lemma {:induction false} OutwardPrefixNear(center: nat, n: nat, k: nat)
    ensures forall i | 0 <= i < |OutwardPrefix(center, n, k)| ::
      Dist(OutwardPrefix(center, n, k)[i], center) < (if k <= 1 then 1 else k)
  {
    if k > 1 {
      OutwardPrefixNear(center, n, k - 1);
    }
  }

  /** The outward sequence starts at the centre and lists strictly
      increasing distances, the left index before the right one at equal
      distance. In particular no index appears twice. */
  lemma {:induction false} OutwardSorted(center: nat, n: nat, k: nat)
    ensures OutwardPrefix(center, n, k)[0] == center
    ensures forall i, j | 0 <= i < j < |OutwardPrefix(center, n, k)| ::
      Before(OutwardPrefix(center, n, k)[i], OutwardPrefix(center, n, k)[j], center)
  {
    if k > 1 {
      OutwardSorted(center, n, k - 1);
      OutwardPrefixNear(center, n, k - 1);
      var p := OutwardPrefix(center, n, k - 1);
      var r := Ring(center, n, k - 1);
      assert OutwardPrefix(center, n, k) == p + r;
      forall i, j | 0 <= i < j < |p + r|
        ensures Before((p + r)[i], (p + r)[j], center)
      {
        if j < |p| {
          assert (p + r)[i] == p[i] && (p + r)[j] == p[j];
        } else if i < |p| {
          assert Dist((p + r)[j], center) == k - 1;
        }
      }
    }
  }

  /** Length of the outward prefix: the centre plus the indices on each
      side that fall inside `[0, n)` and less than `k` away. */
  lemma {:induction false} OutwardPrefixLength(center: nat, n: nat, k: nat)
    requires center < n && 1 <= k
    ensures |OutwardPrefix(center, n, k)| ==
      1 + (if k - 1 < center then k - 1 else center) + (if k - 1 < n - 1 - center then k - 1 else n - 1 - center)
  {
    if k > 1 {
      OutwardPrefixLength(center, n, k - 1);
    }
  }

  /** Every index of `[0, n)` less than `k` away from the centre is in the prefix. */
  lemma {:induction false} OutwardPrefixCovers(center: nat, n: nat, k: nat, m: int)
    requires 0 <= m < n && Dist(m, center) < k
    ensures m in OutwardPrefix(center, n, k)
  {
    if k > 1 {
      if Dist(m, center) < k - 1 {
        OutwardPrefixCovers(center, n, k - 1, m);
      } else {
        assert m in Ring(center, n, k - 1);
      }
    }
  }

  /** With the centre inside `[0, n)`, the outward order is a permutation
      of the letter indices that starts at the centre. */
  lemma OutwardIsPermutation(center: nat, n: nat)
    requires center < n
    ensures IsPermutation(OutwardOrder(center, n), n)
    ensures OutwardOrder(center, n)[0] == center
  {
    var o := OutwardOrder(center, n);
    OutwardSorted(center, n, n);
    OutwardPrefixLength(center, n, n);
    assert |o| == n;
    forall i | 0 <= i < |o| ensures 0 <= o[i] < n {
      OutwardPrefixInRange(center, n, n);
    }
    forall m | 0 <= m < n ensures m in o {
      OutwardPrefixCovers(center, n, n, m);
    }
  }

  /** With the centre inside `[0, n)`, every index of the prefix is a letter index. */
  lemma {:induction false} OutwardPrefixInRange(center: nat, n: nat, k: nat)
    requires center < n
    ensures forall i | 0 <= i < |OutwardPrefix(center, n, k)| :: 0 <= OutwardPrefix(center, n, k)[i] < n
  {
    if k > 1 {
      OutwardPrefixInRange(center, n, k - 1);
    }
  }

  /** The `center-outward` variant starts at `n / 2`. */
  lemma CenterOutwardStartsAtMiddle(n: nat)
    requires n >= 1
    ensures IsPermutation(OutwardOrder(n / 2, n), n)
    ensures OutwardOrder(n / 2, n)[0] == n / 2
  {
    OutwardIsPermutation(n / 2, n);
  }

  /** With no letters, the outward order still holds the centre alone. */
  lemma OutwardOfNoLetters(center: nat)
    ensures OutwardOrder(center, 0) == [center]
  {
  }

  /** `choose[i]` is the index drawn at round `i` of the shuffle,
      `Math.floor(Math.random() * (i + 1))`, so it lies in `[0, i]`. */
  ghost predicate ValidChoices(choose: seq<nat>, n: nat) {
    |choose| == n && forall i | 0 <= i < n :: choose[i] <= i
  }

  /** Swapping two entries of a permutation gives a permutation. */
  lemma SwapKeepsPermutation(s: seq<int>, n: nat, i: nat, j: nat)
    requires IsPermutation(s, n) && i < n && j < n
    ensures IsPermutation(s[i := s[j]][j := s[i]], n)
  {
    var t := s[i := s[j]][j := s[i]];
    forall k | 0 <= k < n ensures k in t {
      assert k in s;
      var m :| 0 <= m < |s| && s[m] == k;
      if m == i {
        assert t[j] == k;
      } else if m == j {
        assert t[i] == k;
      } else {
        assert t[m] == k;
      }
    }
  }

  /** Swapping two entries keeps the multiset of entries. */
  lemma SwapKeepsMultiset(s: seq<int>, i: nat, j: nat)
    requires i < |s| && j < |s|
    ensures multiset(s[i := s[j]][j := s[i]]) == multiset(s)
  {
    var t := s[i := s[j]];
    assert multiset(t) == multiset(s) - multiset{s[i]} + multiset{s[j]};
  }

  /** The `random` variant: a Fisher-Yates shuffle of the identity order,
      swapping in place from the last index down to 1. */
  method Shuffle(n: nat, choose: seq<nat>) returns (order: seq<int>)
    requires ValidChoices(choose, n)
    ensures IsPermutation(order, n)
    ensures multiset(order) == multiset(Iota(n))
  {
    var a := new int[n](k => k);
    assert a[..] == Iota(n);
    IotaIsPermutation(n);
    var i := n - 1;
    while i > 0
      invariant i < n || n == 0
      invariant IsPermutation(a[..], n)
      invariant multiset(a[..]) == multiset(Iota(n))
    {
      var j := choose[i];
      ghost var before := a[..];
      SwapKeepsPermutation(before, n, i, j);
      SwapKeepsMultiset(before, i, j);
      a[i], a[j] := a[j], a[i];
      assert a[..] == before[i := before[j]][j := before[i]];
      i := i - 1;
    }
    order := a[..];
  }

  /** `getAnimationSequence` for `n` letters. `hovered` is the hovered
      letter's index (`null` when none was found), `choose` the random draws. */
  method AnimationSequence(variant: Variant, n: nat, hovered: Option<nat>, choose: seq<nat>)
    returns (order: seq<int>)
    requires variant == Random ==> ValidChoices(choose, n)
    ensures variant == LeftToRight ==> order == Iota(n)
    ensures variant == CenterOutward ==> order == OutwardOrder(n / 2, n) && (n >= 1 ==> order[0] == n / 2)
    ensures variant == FromCursor ==> order == OutwardOrder(hovered.GetOr(0), n)
    ensures variant == FromCursor && hovered.GetOr(0) < n ==> order[0] == hovered.GetOr(0)
    ensures n >= 1 && (variant == FromCursor ==> hovered.GetOr(0) < n) ==> IsPermutation(order, n)
    ensures variant == Random ==> IsPermutation(order, n)
  {
    match variant
    case LeftToRight =>
      order := Iota(n);
      IotaIsPermutation(n);
    case CenterOutward =>
      order := Outward(n / 2, n);
      OutwardSorted(n / 2, n, n);
      if n >= 1 {
        OutwardIsPermutation(n / 2, n);
      }
    case FromCursor =>
      var center := hovered.GetOr(0);
      order := Outward(center, n);
      OutwardSorted(center, n, n);
      if center < n {
        OutwardIsPermutation(center, n);
      }
    case Random =>
      order := Shuffle(n, choose);
  }

  /** `n` letters of colour `c`. */
  function Fill(n: nat, c: Color): (r: seq<Color>)
    ensures |r| == n && forall i | 0 <= i < n :: r[i] == c
  {
    seq(n, _ => c)
  }

  /** The colours after the first `k` ticks of a sweep along `order`. */
  function Paint(colors: seq<Color>, order: seq<int>, hover: Color, k: nat): (r: seq<Color>)
    requires k <= |order| && forall i | 0 <= i < |order| :: 0 <= order[i] < |colors|
    ensures |r| == |colors|
  {
    if k == 0 then colors else Paint(colors, order, hover, k - 1)[order[k - 1] := hover]
  }

  /** After `k` ticks a letter shows the hover colour exactly when its index
      is among the first `k` of the order; the others keep their colour. */
  lemma {:induction false} PaintAt(colors: seq<Color>, order: seq<int>, hover: Color, k: nat, i: int)
    requires k <= |order| && forall m | 0 <= m < |order| :: 0 <= order[m] < |colors|
    requires 0 <= i < |colors|
    ensures Paint(colors, order, hover, k)[i] == if i in order[..k] then hover else colors[i]
  {
    if k > 0 {
      PaintAt(colors, order, hover, k - 1, i);
      assert order[..k] == order[..k - 1] + [order[k - 1]];
    }
  }

  /** A sweep along a permutation, run to its end, colours every letter. */
  lemma SweepCoversAll(colors: seq<Color>, order: seq<int>, hover: Color)
    requires IsPermutation(order, |colors|)
    ensures Paint(colors, order, hover, |order|) == Fill(|colors|, hover)
  {
    forall i | 0 <= i < |colors|
      ensures Paint(colors, order, hover, |order|)[i] == hover
    {
      PaintAt(colors, order, hover, |order|, i);
      assert order[..|order|] == order;
    }
  }

  /** The component's state. `ticking` says the colour interval runs;
      `intervalSet` that an interval was ever stored in its ref (the ref
      is never cleared). `order` and `step` are the running sweep's
      sequence and position. */
  class HoverLetters {
    const variant: Variant
    const base: Color
    const hover: Color
    const letters: seq<char>
    var colors: seq<Color>
    var isHovered: bool
    var animationComplete: bool
    var hoveredIndex: Option<nat>
    var isAnimating: bool
    var order: seq<int>
    var step: nat
    var ticking: bool
    var intervalSet: bool

    ghost predicate Valid()
      reads this
    {
      && |colors| == |letters|
      && (hoveredIndex.GetOr(0) < |letters| || hoveredIndex.GetOr(0) == 0)
      && (ticking ==> intervalSet)
      && (ticking ==>
            && step <= |order|
            && (forall k | 0 <= k < |order| :: 0 <= order[k] < |letters|)
            && colors == Paint(Fill(|letters|, base), order, hover, step))
    }

    /** Mounting: the text split into its characters, all in the base colour. */
    constructor (text: string, variant: Variant, base: Color, hover: Color)
      ensures Valid()
      ensures this.variant == variant && this.base == base && this.hover == hover
      ensures letters == text && colors == Fill(|text|, base)
      ensures !isHovered && !animationComplete && hoveredIndex == None && !isAnimating
      ensures !ticking && !intervalSet
    {
      this.variant := variant;
      this.base := base;
      this.hover := hover;
      letters := text;
      colors := Fill(|text|, base);
      isHovered := false;
      animationComplete := false;
      hoveredIndex := None;
      isAnimating := false;
      order := [];
      step := 0;
      ticking := false;
      intervalSet := false;
    }

    /** Every letter back to the base colour. */
    method ResetColors()
      modifies this`colors
      ensures colors == Fill(|letters|, base)
    {
      colors := Fill(|letters|, base);
    }

    /** `animateLetters`, called with the `hoveredLetterIndex` of the
        render it was created in (`rendered`): with no letters or an empty
        order nothing happens; otherwise all letters go back to the base
        colour and a sweep along the variant's order starts at step 0. */
    method AnimateLetters(rendered: Option<nat>, choose: seq<nat>)
      requires Valid() && !ticking
      requires rendered.GetOr(0) < |letters| || rendered.GetOr(0) == 0
      requires variant == Random ==> ValidChoices(choose, |letters|)
      modifies this`colors, this`order, this`step, this`ticking, this`intervalSet
      ensures Valid()
      ensures |letters| == 0 ==>
        && colors == old(colors) && !ticking && order == old(order)
        && step == old(step) && intervalSet == old(intervalSet)
      ensures |letters| > 0 ==>
        && ticking && intervalSet && step == 0 && colors == Fill(|letters|, base)
        && IsPermutation(order, |letters|)
        && (variant == LeftToRight ==> order == Iota(|letters|))
        && (variant == CenterOutward ==> order == OutwardOrder(|letters| / 2, |letters|) && order[0] == |letters| / 2)
        && (variant == FromCursor ==> order == OutwardOrder(rendered.GetOr(0), |letters|) && order[0] == rendered.GetOr(0))
    {
      if |letters| == 0 {
        return;
      }
      var sequence := AnimationSequence(variant, |letters|, rendered, choose);
      if |sequence| == 0 {
        return;
      }
      order := sequence;
      step := 0;
      colors := Fill(|letters|, base);
      ticking := true;
      intervalSet := true;
    }

    /** One interval tick: colour the next letter of the order, or, once
        the order is exhausted, stop the interval and mark the sweep done. */
    method Tick()
      requires Valid() && ticking
      modifies this`colors, this`step, this`ticking, this`animationComplete, this`isAnimating
      ensures Valid()
      ensures old(step) < |order| ==>
        && colors == old(colors)[order[old(step)] := hover]
        && step == old(step) + 1 && ticking
        && animationComplete == old(animationComplete) && isAnimating == old(isAnimating)
      ensures old(step) >= |order| ==>
        colors == old(colors) && step == old(step) && !ticking && animationComplete && !isAnimating
      ensures !ticking && IsPermutation(order, |letters|) ==> colors == Fill(|letters|, hover)
    {
      if step >= |order| {
        ticking := false;
        animationComplete := true;
        isAnimating := false;
        SweepCoversAllOf(Fill(|letters|, base));
        return;
      }
      colors := colors[order[step] := hover];
      step := step + 1;
    }

    /** The end of a sweep, as seen from the state: with the whole order
        applied, a permutation leaves every letter in the hover colour. */
    lemma SweepCoversAllOf(start: seq<Color>)
      requires step == |order| && |start| == |letters|
      requires forall k | 0 <= k < |order| :: 0 <= order[k] < |letters|
      ensures IsPermutation(order, |letters|) ==> Paint(start, order, hover, step) == Fill(|letters|, hover)
    {
      if IsPermutation(order, |letters|) {
        SweepCoversAll(start, order, hover);
      }
    }

    /** The mouse enters the text, at letter `hovered`: stop any running
        sweep, clear the completion flag, record the hovered letter for
        `from-cursor`, and start a new sweep. The sweep is started within
        the same handler, so it still sees the hovered index of the current
        render, not the one just recorded: a `from-cursor` sweep starts at
        the previously recorded letter (0 when none). */
    method MouseEnter(hovered: nat, choose: seq<nat>)
      requires Valid() && (hovered < |letters| || hovered == 0)
      requires variant == Random ==> ValidChoices(choose, |letters|)
      modifies this
      ensures Valid()
      ensures isHovered && !animationComplete && isAnimating
      ensures variant == FromCursor ==> hoveredIndex == Some(hovered)
      ensures variant != FromCursor ==> hoveredIndex == old(hoveredIndex)
      ensures |letters| == 0 ==>
        && !ticking && colors == old(colors) && order == old(order)
        && step == old(step) && intervalSet == old(intervalSet)
      ensures |letters| > 0 ==>
        && ticking && intervalSet && step == 0 && colors == Fill(|letters|, base)
        && IsPermutation(order, |letters|)
        && (variant == LeftToRight ==> order == Iota(|letters|))
        && (variant == CenterOutward ==> order == OutwardOrder(|letters| / 2, |letters|))
        && (variant == FromCursor ==> order == OutwardOrder(old(hoveredIndex).GetOr(0), |letters|))
      ensures |letters| > 0 && variant == FromCursor ==> order[0] == old(hoveredIndex).GetOr(0)
    {
      var rendered := hoveredIndex;
      isHovered := true;
      ticking := false;
      animationComplete := false;
      if variant == FromCursor {
        hoveredIndex := Some(hovered);
      }
      isAnimating := true;
      AnimateLetters(rendered, choose);
    }

    /** The evidently intended hover start: the same as `MouseEnter`, but
        a `from-cursor` sweep starts at the letter under the cursor. */
    method MouseEnterAtCursor(hovered: nat, choose: seq<nat>)
      requires Valid() && (hovered < |letters| || hovered == 0)
      requires variant == Random ==> ValidChoices(choose, |letters|)
      modifies this
      ensures Valid()
      ensures isHovered && !animationComplete && isAnimating
      ensures variant == FromCursor ==> hoveredIndex == Some(hovered)
      ensures variant != FromCursor ==> hoveredIndex == old(hoveredIndex)
      ensures |letters| == 0 ==>
        && !ticking && colors == old(colors) && order == old(order)
        && step == old(step) && intervalSet == old(intervalSet)
      ensures |letters| > 0 ==>
        && ticking && intervalSet && step == 0 && colors == Fill(|letters|, base)
        && IsPermutation(order, |letters|)
        && (variant == LeftToRight ==> order == Iota(|letters|))
        && (variant == CenterOutward ==> order == OutwardOrder(|letters| / 2, |letters|))
        && (variant == FromCursor ==> order == OutwardOrder(hovered, |letters|))
      ensures |letters| > 0 && variant == FromCursor ==> order[0] == hovered
    {
      isHovered := true;
      ticking := false;
      animationComplete := false;
      if variant == FromCursor {
        hoveredIndex := Some(hovered);
      }
      isAnimating := true;
      AnimateLetters(Some(hovered), choose);
    }

    /** The `resetDelay` timer after the mouse leaves: colours back to
        base, hover tracking cleared, and a stored interval stopped. */
    method LeaveSettled()
      requires Valid()
      modifies this
      ensures Valid()
      ensures !isHovered && colors == Fill(|letters|, base) && hoveredIndex == None
      ensures !animationComplete && !ticking
      ensures isAnimating == (old(isAnimating) && !old(intervalSet))
      ensures order == old(order) && step == old(step) && intervalSet == old(intervalSet)
    {
      isHovered := false;
      ResetColors();
      hoveredIndex := None;
      animationComplete := false;
      if intervalSet {
        ticking := false;
        isAnimating := false;
      }
    }
  }

  /** On a fresh `from-cursor` text, entering at the last letter of `"abc"`
      records index 2, but the sweep starts at letter 0. */
  method StaleCursorExample() returns (first: int, recorded: Option<nat>)
    ensures first == 0 && recorded == Some(2)
  {
    var h := new HoverLetters("abc", FromCursor, "base", "hover");
    h.MouseEnter(2, []);
    first := h.order[0];
    recorded := h.hoveredIndex;
  }

  /** With the intended start, the same hover starts the sweep at letter 2. */
  method CursorExampleAtHoveredLetter() returns (first: int, recorded: Option<nat>)
    ensures first == 2 && recorded == Some(2)
  {
    var h := new HoverLetters("abc", FromCursor, "base", "hover");
    h.MouseEnterAtCursor(2, []);
    first := h.order[0];
    recorded := h.hoveredIndex;
  }
}
