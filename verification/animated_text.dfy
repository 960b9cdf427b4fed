/** The word-by-word heading: the main text and an optional highlighted
    tail are joined with a space and split into words; the words from the
    main text's word count on get the highlight style. Each word starts
    offset by `distance` along the chosen direction. */
module AnimatedText {
  import opened JsStrings

  /** `highlightedText ? text + " " + highlightedText : text`. */
  function CombinedText(text: string, highlighted: string): string {
    if highlighted != "" then text + [' '] + highlighted else text
  }

  /** `combinedText.split(' ')`. */
  function Words(text: string, highlighted: string): seq<string> {
    Split(CombinedText(text, highlighted), ' ')
  }

  /** `text.trim().split(' ').length`. */
  function MainTextLength(text: string): nat {
    |Split(Trim(text), ' ')|
  }

  /** Whether the word at `index` gets the highlight style. */
  predicate IsHighlighted(text: string, highlighted: string, index: int) {
    highlighted != "" && index >= MainTextLength(text)
  }

  /** There is one more word than there are spaces in the combined text. */
  lemma WordCount(text: string, highlighted: string)
    ensures |Words(text, highlighted)| == Count(CombinedText(text, highlighted), ' ') + 1
  {
    SplitLength(CombinedText(text, highlighted), ' ');
  }

  /** Without highlighted text, the words are the text's own and none is highlighted. */
  lemma NoHighlightText(text: string)
    ensures Words(text, "") == Split(text, ' ')
    ensures forall i :: !IsHighlighted(text, "", i)
  {
  }

  /** The highlighted words form a suffix of the words. */
  lemma HighlightIsSuffix(text: string, highlighted: string, i: int, j: int)
    requires i <= j && IsHighlighted(text, highlighted, i)
    ensures IsHighlighted(text, highlighted, j)
  {
  }

  /** For a text without surrounding whitespace, the highlighted words are
      exactly the words of the highlighted text. */
  lemma HighlightedWordsOfTrimmedText(text: string, highlighted: string)
    requires text == Trim(text) && highlighted != ""
    ensures Words(text, highlighted) == Split(text, ' ') + Split(highlighted, ' ')
    ensures forall i | 0 <= i < |Words(text, highlighted)| ::
      IsHighlighted(text, highlighted, i) <==> i >= |Split(text, ' ')|
    ensures Words(text, highlighted)[MainTextLength(text)..] == Split(highlighted, ' ')
  {
    SplitAppend(text, ' ', highlighted);
  }

  /** A leading space breaks the boundary: for a text made of one space
      and one word (such as `" Hi"`), the words are `""` and the word, but
      the trimmed text has a single word, so with any highlighted text the
      main-text word at index 1 is highlighted too. */
  lemma LeadingSpaceHighlightsMainText(word: string, highlighted: string)
    requires word != [] && ' ' !in word && highlighted != ""
    requires !IsJsWhitespace(word[0]) && !IsJsWhitespace(word[|word| - 1])
    ensures Split([' '] + word, ' ') == ["", word]
    ensures MainTextLength([' '] + word) == 1
    ensures Words([' '] + word, highlighted)[1] == word
    ensures IsHighlighted([' '] + word, highlighted, 1)
  {
    var text := [' '] + word;
    assert text[1..] == word;
    SplitWithoutSeparator(word, ' ');
    assert Split(text, ' ') == ["", word];
    TrimSkipsLeadingWhitespace(' ', word);
    TrimUnpadded(word);
    SplitAppend(text, ' ', highlighted);
  }

  /** The smallest such text: `" Hi"` followed by `"there"`. */
  lemma LeadingSpaceExample()
    ensures MainTextLength(" Hi") == 1
    ensures IsHighlighted(" Hi", "there", 1) && Words(" Hi", "there")[1] == "Hi"
  {
    assert " Hi" == [' '] + "Hi";
    LeadingSpaceHighlightsMainText("Hi", "there");
  }

  /** The evidently intended boundary: the highlight starts after the
      words of `text` as they appear in the combined text. */
  predicate IsHighlightedIntended(text: string, highlighted: string, index: int) {
    highlighted != "" && index >= |Split(text, ' ')|
  }

  /** With the intended boundary, for every text the highlighted words are
      exactly the words of the highlighted text. */
  lemma IntendedHighlightIsHighlightedText(text: string, highlighted: string)
    requires highlighted != ""
    ensures Words(text, highlighted) == Split(text, ' ') + Split(highlighted, ' ')
    ensures Words(text, highlighted)[|Split(text, ' ')|..] == Split(highlighted, ' ')
    ensures forall i | 0 <= i < |Words(text, highlighted)| ::
      IsHighlightedIntended(text, highlighted, i) <==> i >= |Words(text, highlighted)| - |Split(highlighted, ' ')|
  {
    SplitAppend(text, ' ', highlighted);
  }

  datatype Direction = Up | Down | Left | Right

  /** A word's starting offset: along exactly one axis. */
  datatype Offset = OffsetX(dx: real) | OffsetY(dy: real)

  /** `getInitialTransform`: words rising up start `distance` below, words
      coming down start above, words moving left start to the right and
      words moving right start to the left. */
  function InitialTransform(direction: Direction, distance: real): (o: Offset)
    ensures o.OffsetY? <==> (direction == Up || direction == Down)
    ensures o.OffsetY? ==> o.dy == (if direction == Up then distance else -distance)
    ensures o.OffsetX? ==> o.dx == (if direction == Left then distance else -distance)
  {
    match direction
    case Up => OffsetY(distance)
    case Down => OffsetY(-distance)
    case Left => OffsetX(distance)
    case Right => OffsetX(-distance)
  }
}
