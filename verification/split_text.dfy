/** The letter-by-letter reveal: the text is split at spaces into words,
    every word into letters, and each letter gets a running index across
    all words from which its start delay is computed. The reveal switches
    from the `from` to the `to` appearance once the text is first seen. */
module SplitText {
  import opened JsStrings

  /** `text.split(" ")`. */
  function Words(text: string): seq<string> {
    Split(text, ' ')
  }

  /** `words.flat()`: the text's characters with the spaces taken out. */
  function Letters(text: string): (letters: string)
    ensures letters == Remove(text, ' ')
    ensures ' ' !in letters
    ensures |letters| == |text| - Count(text, ' ')
  {
    FlattenSplit(text, ' ');
    Flatten(Words(text))
  }

  /** `words.reduce((acc, w) => acc + w.length, 0)`. */
  function SumLengths(words: seq<string>): nat {
    if words == [] then 0 else |words[0]| + SumLengths(words[1..])
  }

  /** The index given to letter `l` of word `w`: the lengths of the earlier
      words plus `l`. */
  function LetterIndex(words: seq<string>, w: nat, l: nat): nat
    requires w < |words| && l < |words[w]|
  {
    SumLengths(words[..w]) + l
  }

  /** The index of a letter is its position in the flattened letters. */
  lemma {:induction false} LetterIndexLocates(words: seq<string>, w: nat, l: nat)
    requires w < |words| && l < |words[w]|
    ensures LetterIndex(words, w, l) < |Flatten(words)|
    ensures Flatten(words)[LetterIndex(words, w, l)] == words[w][l]
  {
    if w > 0 {
      LetterIndexLocates(words[1..], w - 1, l);
      assert words[..w] == [words[0]] + words[1..][..w - 1];
      assert words[..w][1..] == words[1..][..w - 1];
    }
  }

  /** Letters in reading order get strictly increasing indices, so no two
      letters share one. */
  lemma {:induction false} LetterIndexOrdered(words: seq<string>, w1: nat, l1: nat, w2: nat, l2: nat)
    requires w1 < |words| && l1 < |words[w1]| && w2 < |words| && l2 < |words[w2]|
    requires w1 < w2 || (w1 == w2 && l1 < l2)
    ensures LetterIndex(words, w1, l1) < LetterIndex(words, w2, l2)
  {
    if w1 > 0 {
      LetterIndexOrdered(words[1..], w1 - 1, l1, w2 - 1, l2);
      assert words[..w1][1..] == words[1..][..w1 - 1];
      assert words[..w2][1..] == words[1..][..w2 - 1];
    } else if w2 > 0 {
      assert words[..w2][1..] == words[1..][..w2 - 1];
    }
  }

  /** Every position of the flattened letters is the index of some letter. */
  lemma {:induction false} LetterIndexCovers(words: seq<string>, i: nat)
    requires i < |Flatten(words)|
    ensures exists w: nat, l: nat | w < |words| && l < |words[w]| :: LetterIndex(words, w, l) == i
  {
    if i < |words[0]| {
      assert LetterIndex(words, 0, i) == i;
    } else {
      LetterIndexCovers(words[1..], i - |words[0]|);
      var w: nat, l: nat :| w < |words[1..]| && l < |words[1..][w]| && LetterIndex(words[1..], w, l) == i - |words[0]|;
      assert words[..w + 1][1..] == words[1..][..w];
      assert LetterIndex(words, w + 1, l) == i;
    }
  }

  /** Start delay, in milliseconds, of the letter at index `i`. */
  function LetterDelay(i: nat, delay: int): int {
    i * delay
  }

  /** With a non-negative `delay`, later letters never start earlier. */
  lemma DelayMonotone(i: nat, j: nat, delay: int)
    requires i <= j && delay >= 0
    ensures LetterDelay(i, delay) <= LetterDelay(j, delay)
  {
    assert j * delay == i * delay + (j - i) * delay;
  }

  /** Time after which the completion callback fires. */
  function TotalDuration(letterCount: nat, delay: int): int {
    letterCount * delay + 500
  }

  /** The callback fires at least 500 ms (plus one delay step) after the
      last letter has started. */
  lemma TotalDurationAfterEveryLetter(letterCount: nat, i: nat, delay: int)
    requires i < letterCount && delay >= 0
    ensures TotalDuration(letterCount, delay) >= LetterDelay(i, delay) + delay + 500
  {
    var k := letterCount - i - 1;
    assert k >= 0;
    assert letterCount * delay == (i + 1 + k) * delay;
    assert (i + 1 + k) * delay == i * delay + delay + k * delay;
    assert k * delay >= 0;
  }

  /** A letter's appearance: opacity and transform. */
  datatype Appearance = Appearance(opacity: real, transform: string)

  /** The component's state: whether the text has been seen, and whether
      the intersection observer still watches it. */
  class SplitTextView {
    const from: Appearance
    const to: Appearance
    var inView: bool
    var observing: bool

    ghost predicate Valid()
      reads this
    {
      inView ==> !observing
    }

    constructor (from: Appearance, to: Appearance)
      ensures Valid() && this.from == from && this.to == to
      ensures !inView && observing
    {
      this.from := from;
      this.to := to;
      inView := false;
      observing := true;
    }

    /** The appearance every letter is given. */
    function LetterAppearance(): Appearance
      reads this
    {
      if inView then to else from
    }

    /** An intersection report: the first one that intersects sets `inView`
        and stops observing; later reports no longer arrive. */
    method Intersect(isIntersecting: bool)
      requires Valid() && observing
      modifies this
      ensures Valid()
      ensures inView == (old(inView) || isIntersecting)
      ensures observing == !isIntersecting
      ensures isIntersecting ==> LetterAppearance() == to
      ensures !isIntersecting ==> LetterAppearance() == old(LetterAppearance())
    {
      if isIntersecting {
        inView := true;
        observing := false;
      }
    }
  }
}
