# Portfolio site interaction logic, modelled in Dafny

This project models the stateful and computational core of a personal
portfolio web site built with React and Next.js: the interactive text and
overlay components and the project listings. The model covers these parts:

- **Click sparks** (`ClickSpark.tsx`). A document-wide click listener
  ignores clicks that come within 100 ms of the last one. A click inside the
  host region emits a ring of `sparkCount` sparks at the click point. A
  per-frame tick drops every spark whose lifetime (`duration`) is over and
  keeps the frame loop running while sparks remain. A 100 ms safety-net
  interval restarts a stopped loop. The easing curves decide how far a spark
  has travelled and how long its line is.
- **Hover colour sweep** (`HoverText.tsx`). On hover, every letter goes back
  to the base colour. Then, one interval tick at a time, the letters switch
  to the hover colour in the order chosen by the variant: left-to-right,
  outward from the centre, outward from the hovered letter, or a
  Fisher-Yates shuffle.
- **Projects page** (`projects/page.tsx`). A tag filter over a fixed project
  list, and the filter buttons' tags (each once, in order of first
  appearance). The visible projects are split into featured and regular
  cards.
- **Projects section** (`Projects.tsx`). An optional `limit` cuts the list
  with JavaScript `slice` semantics. The "View All" switch defaults to on.
- **Letter reveal** (`SplitText.tsx`). Each letter gets a running index
  across the words and a start delay. A completion time follows from the
  letter count. The reveal switches on the first intersection report.
- **Word-by-word heading** (`AnimatedText.tsx`). The main text and the
  highlighted text are joined and split into words. The highlight boundary
  is the main text's word count. Each word starts offset along a direction.
- **Contact overlay flag** (`ContactContext.tsx`). It can be toggled and
  closed, and the context has an inert default value.
- **Two-sentence focus** (`TrueFocus.tsx`). The focus alternates between two
  sentences on an interval, or follows hover in manual mode. The focus frame
  is the active sentence's box, measured relative to the container.

Time is in integer milliseconds. The clock (`performance.now`, frame
timestamps) and the browser are inputs: a click's timestamp, whether the
click landed in the region, measured boxes, and the shuffle's random draws
(`choose[i]`, the value of `Math.floor(Math.random() * (i + 1))`). The
JavaScript built-ins the components use are defined in `js_strings.dfy`:
`split` on one character, `trim` with the ECMAScript whitespace set, and
`flat`. `Array.prototype.slice`'s end position is defined in
`projects_section.dfy`, and `filter` is defined in `common.dfy`.

Two behaviours of the code worth noting:

- A click outside the host region that passes the debounce still records
  its time, so it restarts the debounce window.
- Unmounting the click-spark component does not clear the spark list in the
  code. Unmounting is not modelled (see below).

## Model

| member | source | states |
|---|---|---|
| ClickSpark.DefaultConfig | src/components/UI/ClickSpark.tsx:27-36 | the prop defaults meet what the frame computations need: a positive lifetime and spark count, non-negative sizes and scale (so `TravelAndTailBounded` applies to them) |
| ClickSpark.FirstClickWithDefaults | src/components/UI/ClickSpark.tsx:173-207 | on a fresh engine with the defaults, a click inside the region before 100 ms is ignored (the last click time starts at 0); a later one emits 8 sparks and starts the loop |
| ClickSpark.Ease | src/components/UI/ClickSpark.tsx:81-95 | every easing curve maps 0 to 0 and 1 to 1, and maps the unit interval into itself |
| ClickSpark.EaseAtHalf | src/components/UI/ClickSpark.tsx:83-92 | at progress 0.5 the curves give 0.5 (linear), 0.25 (ease-in), 0.5 (ease-in-out) and 0.75 (ease-out, the default branch) |
| ClickSpark.Progress | src/components/UI/ClickSpark.tsx:119 | while a spark is alive, its progress `elapsed / duration` lies in [0, 1) |
| ClickSpark.TravelAndTailBounded | src/components/UI/ClickSpark.tsx:119-123 | while alive, a spark has travelled between 0 and `sparkRadius * extraScale`, and its line length is between 0 and `sparkSize` |
| ClickSpark.FreshSpark | src/components/UI/ClickSpark.tsx:119-123 | at birth a spark has not moved and its line has full length |
| ClickSpark.NewSparks | src/components/UI/ClickSpark.tsx:189-201 | a burst holds `sparkCount` sparks (none when the count is not positive), all at the click point and time, the i-th with angle index i |
| ClickSpark.Survivors | src/components/UI/ClickSpark.tsx:112-140 | a frame keeps exactly the sparks with `elapsed < duration`, unchanged, in their original order and with every occurrence of a live spark kept |
| ClickSpark.BurstLifetime | src/components/UI/ClickSpark.tsx:112-117 | a burst is gone at the first frame at least `duration` after its click; with a positive duration it is whole at its own click time |
| ClickSpark.SurvivorsDropsAll | src/components/UI/ClickSpark.tsx:113-117 | a frame at which no spark is alive leaves none |
| ClickSpark.SurvivorsKeepsAll | src/components/UI/ClickSpark.tsx:112-140 | a frame at which every spark is alive keeps the list unchanged |
| ClickSpark.SparkEngine.constructor | src/components/UI/ClickSpark.tsx:39-41 | no sparks, loop stopped, last click time 0 |
| ClickSpark.SparkEngine.Click | src/components/UI/ClickSpark.tsx:173-207 | a click within 100 ms of the last accepted one changes nothing; any other click records its time, even outside the region; a click inside appends the burst after the existing sparks and leaves the loop running with a frame pending |
| ClickSpark.SparkEngine.Tick | src/components/UI/ClickSpark.tsx:106-148 | the new spark list is the survivors of the old one; the loop continues with a frame pending exactly when sparks remain, otherwise it stops; the invariant "sparks exist implies the loop runs" is kept |
| ClickSpark.SparkEngine.StartAnimation | src/components/UI/ClickSpark.tsx:151-156 | starts the loop only when it is stopped and sparks exist; otherwise nothing changes; sparks are untouched |
| ClickSpark.SparkEngine.IntervalCheck | src/components/UI/ClickSpark.tsx:159-163 | when sparks exist and the loop is stopped, it starts the loop and requests a frame; afterwards the loop runs whenever sparks exist; the sparks are unchanged; in a consistent state the check never acts |
| ClickSpark.StartTwice | src/components/UI/ClickSpark.tsx:151-156 | starting twice has the effect of starting once: sparks and last click time unchanged, the loop running with a frame pending exactly when it was running or sparks existed |
| HoverText.Outward | src/components/UI/HoverText.tsx:272-286 | the loop over distances produces exactly the outward order `OutwardOrder(center, n)` |
| HoverText.OutwardSorted | src/components/UI/HoverText.tsx:277-283 | the outward order starts at the centre and lists non-decreasing distances, the left index first at equal distance (strictly increasing in the pair of distance and index), so no index repeats |
| HoverText.OutwardPrefixNear | src/components/UI/HoverText.tsx:277-283 | after handling distances below k, every listed index is less than k away from the centre |
| HoverText.OutwardPrefixLength | src/components/UI/HoverText.tsx:277-283 | the number of listed indices: the centre plus the in-range indices on each side less than k away |
| HoverText.OutwardPrefixCovers | src/components/UI/HoverText.tsx:277-283 | every letter index less than k away from the centre is listed |
| HoverText.OutwardPrefixInRange | src/components/UI/HoverText.tsx:281-282 | with the centre a letter index, every listed index is a letter index |
| HoverText.OutwardIsPermutation | src/components/UI/HoverText.tsx:288-302 | for a centre that is a letter index, the outward order is a permutation of the letter indices starting at the centre |
| HoverText.CenterOutwardStartsAtMiddle | src/components/UI/HoverText.tsx:272-274 | the center-outward order of a non-empty text is a permutation starting at `floor(n / 2)` |
| HoverText.OutwardOfNoLetters | src/components/UI/HoverText.tsx:272-286 | with no letters the outward order is the centre alone |
| HoverText.SwapKeepsPermutation | src/components/UI/HoverText.tsx:310 | swapping two entries keeps a permutation a permutation |
| HoverText.SwapKeepsMultiset | src/components/UI/HoverText.tsx:310 | swapping two entries keeps the same entries with the same counts |
| HoverText.Shuffle | src/components/UI/HoverText.tsx:304-313 | the Fisher-Yates shuffle, for any admissible random draws, yields a permutation of the identity order |
| HoverText.AnimationSequence | src/components/UI/HoverText.tsx:265-318 | left-to-right is the identity; center-outward and from-cursor are the outward orders from `floor(n / 2)` and from the hovered index (0 when none); every variant yields a permutation when the centre is a letter index |
| HoverText.Fill | src/components/UI/HoverText.tsx:41 | n letters, all of the given colour |
| HoverText.Paint | src/components/UI/HoverText.tsx:251-258 | colouring along the order never changes the number of letters |
| HoverText.PaintAt | src/components/UI/HoverText.tsx:243-260 | after k ticks a letter has the hover colour exactly when its index is among the first k of the order; other letters keep their colour |
| HoverText.SweepCoversAll | src/components/UI/HoverText.tsx:243-261 | a sweep along a permutation, run to its end, leaves every letter in the hover colour |
| HoverText.HoverLetters.constructor | src/components/UI/HoverText.tsx:38-42 | the text split into characters, all in the base colour, nothing hovered or animating |
| HoverText.HoverLetters.ResetColors | src/components/UI/HoverText.tsx:224-226 | every letter back to the base colour |
| HoverText.HoverLetters.AnimateLetters | src/components/UI/HoverText.tsx:229-262 | with no letters nothing changes; otherwise all letters reset to the base colour and a sweep starts at step 0 along the variant's order: the identity (left-to-right), the outward order from the middle (center-outward) or from the rendered hovered index (from-cursor), a permutation in every case |
| HoverText.HoverLetters.Tick | src/components/UI/HoverText.tsx:243-261 | a tick colours the next letter of the order, or at the end stops the interval and marks the sweep complete, leaving colours and step as they were; a finished sweep along a permutation leaves every letter in the hover colour |
| HoverText.HoverLetters.SweepCoversAllOf | src/components/UI/HoverText.tsx:244-248 | when the step has reached the end of a permutation order, every letter has the hover colour |
| HoverText.HoverLetters.MouseEnter | src/components/UI/HoverText.tsx:45-67 | hovered, not complete, animating; from-cursor records the hovered letter (other variants keep the recorded one); with letters, a sweep starts along the variant's order, where from-cursor uses the previously recorded letter as centre; with none, no interval runs and the colours and sweep state stay |
| HoverText.HoverLetters.MouseEnterAtCursor | src/components/UI/HoverText.tsx:57-66 | as `MouseEnter`, but the from-cursor sweep is the outward order from the hovered letter |
| HoverText.HoverLetters.LeaveSettled | src/components/UI/HoverText.tsx:204-220 | after the reset delay: not hovered, base colours, no hovered letter, not complete, no interval running; the animating flag is cleared only when an interval was ever stored; the sweep's order, step and stored-interval flag stay |
| HoverText.StaleCursorExample | src/components/UI/HoverText.tsx:58-66 | on a fresh from-cursor text "abc", entering at letter 2 records 2 but starts the sweep at 0 |
| HoverText.CursorExampleAtHoveredLetter | src/components/UI/HoverText.tsx:288-290 | with the intended start, the same hover starts the sweep at letter 2 |
| ProjectsPage.FilteredProjects | src/app/projects/page.tsx:160-162 | "all" shows every project; any other filter shows exactly the projects carrying that tag, in their original order, each occurrence of such a project kept |
| ProjectsPage.FlatTags | src/app/projects/page.tsx:165 | a tag is in the flattened list exactly when some project carries it |
| ProjectsPage.Dedup | src/app/projects/page.tsx:165 | the de-duplicated list holds the same values and none of them twice |
| ProjectsPage.DedupOrdered | src/app/projects/page.tsx:165 | the de-duplicated values are in the order of their first occurrences |
| ProjectsPage.AllTagsSpec | src/app/projects/page.tsx:165 | the tag buttons list every tag of every project exactly once, only tags of some project, ordered by first appearance |
| ProjectsPage.TagButtonSelectsSomething | src/app/projects/page.tsx:160-165 | filtering by any listed tag shows at least one project |
| ProjectsPage.CardGridsPartition | src/app/projects/page.tsx:201-218 | the featured and regular grids split the filtered list: together they hold every entry exactly once, each grid in the filtered order |
| ProjectsPage.ProjectsView.constructor | src/app/projects/page.tsx:158 | the filter starts at "all" |
| ProjectsPage.ProjectsView.ClickAll | src/app/projects/page.tsx:178 | the "All" button sets the filter to "all" |
| ProjectsPage.ProjectsView.ClickTag | src/app/projects/page.tsx:190 | a tag button sets the filter to its tag, which then shows at least one project |
| ProjectsSection.DisplayedProjects | src/components/UI/Projects.tsx:53 | no limit and a limit of 0 show everything; any other limit shows a prefix of `min(limit, n)` projects when positive, `max(0, n + limit)` when negative |
| ProjectsSection.LargeLimitShowsAll | src/components/UI/Projects.tsx:53 | a limit at least the list length shows the whole list |
| ProjectsSection.ShowViewAll | src/components/UI/Projects.tsx:52 | the link is shown unless the prop is explicitly false |
| SplitText.Letters | src/components/UI/SplitText.tsx:36-37 | the letters are exactly the text's characters with the spaces removed, in order, so there are as many as the text has non-space characters |
| SplitText.LetterIndexLocates | src/components/UI/SplitText.tsx:85-86 | the running index of letter l of word w is that letter's position in the flattened letters |
| SplitText.LetterIndexOrdered | src/components/UI/SplitText.tsx:85-86 | letters in reading order get strictly increasing indices, so no two letters share one |
| SplitText.LetterIndexCovers | src/components/UI/SplitText.tsx:85-86 | every position of the flattened letters is the index of some letter |
| SplitText.DelayMonotone | src/components/UI/SplitText.tsx:68 | with a non-negative delay, a later letter never starts earlier |
| SplitText.TotalDurationAfterEveryLetter | src/components/UI/SplitText.tsx:53 | the completion callback fires at least one delay step plus 500 ms after the last letter starts |
| SplitText.SplitTextView.constructor | src/components/UI/SplitText.tsx:39 | not in view, observing |
| SplitText.SplitTextView.Intersect | src/components/UI/SplitText.tsx:46-49 | an intersecting report sets in-view and stops observing, after which every letter shows the `to` appearance; other reports change neither the flag nor the appearance |
| AnimatedText.WordCount | src/components/UI/AnimatedText.tsx:37-38 | the combined text has one more word than it has spaces |
| AnimatedText.NoHighlightText | src/components/UI/AnimatedText.tsx:135 | without highlighted text the words are the text's own and none is highlighted |
| AnimatedText.HighlightIsSuffix | src/components/UI/AnimatedText.tsx:135 | once a word is highlighted, every later word is too |
| AnimatedText.HighlightedWordsOfTrimmedText | src/components/UI/AnimatedText.tsx:37-41 | for a text without surrounding whitespace, the highlighted words are exactly the words of the highlighted text |
| AnimatedText.LeadingSpaceHighlightsMainText | src/components/UI/AnimatedText.tsx:41 | for a space followed by one word, the trimmed text counts one word while the combined text has two before the highlight, so the main-text word is highlighted |
| AnimatedText.LeadingSpaceExample | src/components/UI/AnimatedText.tsx:41 | text " Hi" with highlighted "there" highlights the word "Hi" |
| AnimatedText.IntendedHighlightIsHighlightedText | src/components/UI/AnimatedText.tsx:41 | counting the main words without trimming, the highlighted words are exactly the highlighted text's words for every text |
| AnimatedText.InitialTransform | src/components/UI/AnimatedText.tsx:115-123 | up and down move along y, left and right along x; up and left start at `+distance`, down and right at `-distance` |
| ContactContext.ContactState.Provider | src/context/ContactContext.tsx:20 | the provider's flag starts closed |
| ContactContext.ContactState.Default | src/context/ContactContext.tsx:12-17 | the default context is closed |
| ContactContext.ContactState.ToggleContact | src/context/ContactContext.tsx:22-24 | a provider negates the flag; the default's no-op leaves it closed |
| ContactContext.ContactState.CloseContact | src/context/ContactContext.tsx:26-28 | the overlay is closed afterwards, from any state |
| ContactContext.ContactState.OnAnimationComplete | src/context/ContactContext.tsx:31-33 | changes no state |
| ContactContext.ToggleTwice | src/context/ContactContext.tsx:22-24 | two toggles restore the flag |
| ContactContext.CloseTwice | src/context/ContactContext.tsx:26-28 | closing is idempotent |
| TrueFocus.Other | src/components/UI/TrueFocus.tsx:42 | the interval's flip always picks the other sentence, and stays within 0 and 1 |
| TrueFocus.OtherTwice | src/components/UI/TrueFocus.tsx:42 | flipping twice returns to the same sentence |
| TrueFocus.ExactlyOneSharp | src/components/UI/TrueFocus.tsx:78-91 | with a non-zero blur amount exactly one sentence, the active one, is sharp, and the other has the full blur amount |
| TrueFocus.FocusRectOf | src/components/UI/TrueFocus.tsx:55-60 | the frame, moved by the container's origin, is the active sentence's box; width and height are unchanged |
| TrueFocus.FocusRectTranslationInvariant | src/components/UI/TrueFocus.tsx:52-60 | moving the container and the sentence together leaves the frame unchanged |
| TrueFocus.Focus.constructor | src/components/UI/TrueFocus.tsx:32-46 | the first sentence starts active, the frame starts empty at the origin, and the interval is installed exactly when not in manual mode |
| TrueFocus.Focus.Tick | src/components/UI/TrueFocus.tsx:41-43 | an interval firing (never in manual mode) switches to the other sentence |
| TrueFocus.Focus.MouseEnter | src/components/UI/TrueFocus.tsx:63-67 | in manual mode hovering a sentence activates it; otherwise nothing changes |
| TrueFocus.Focus.UpdateFocusRect | src/components/UI/TrueFocus.tsx:49-61 | with the container and the active sentence measured, the frame moves over the sentence; with either missing it stays |
| TrueFocus.TwoTicksRestore | src/components/UI/TrueFocus.tsx:42 | two interval firings bring the focus back |

## Left out

- Canvas drawing is not modelled: line coordinates from the precomputed cosine and sine, stroke style and width. Floating-point trigonometry is left out, and a spark keeps its angle index `i` instead of its angle.
- Canvas resizing is not modelled: the `ResizeObserver` and its 200 ms debounced resize. It only sets the canvas size.
- The click handler starts its own copy of the frame loop, inside two nested animation-frame callbacks. It performs the same filtering as the effect's loop, so both are modelled by one `Tick`. The click's `hit` input covers only the container and canvas presence check and the containment test before the burst is created. The canvas and context checks at the start of the first of those frame callbacks are not modelled. If they fail, the code keeps the new sparks and the animating flag set but requests no frame; the safety-net interval does not restart the loop, because it tests that the flag is clear; later clicks keep appending sparks. The model's `Valid()` ties a pending frame to the animating flag, so it cannot represent that state.
- Effect cleanup and unmount are not modelled: cancelling frames, clearing intervals and timers, and removing listeners.
- ClickSpark.SparkEngine.Click: clock readings are whole milliseconds, while `performance.now()` has fractional precision.
- ClickSpark.Progress: the frame timestamp is an input, so a frame stamped before a click (negative progress) is not excluded, but no bound is claimed for it.
- ClickSpark.NewSparks: a fractional `sparkCount` is not modelled. The count is an integer, and a non-positive one makes no sparks, as in the source loop.
- HoverText mouse-move handling is not modelled: the 3-pixel threshold, the 5 ms debounce and restarting the sweep on a new letter. Finding the hovered letter from the mouse position (hit test and nearest-letter distance) is not modelled either. The hovered letter is an input of `MouseEnter`.
- HoverText.AnimationSequence: the `default` branch, which returns an empty order, is not modelled. The variant type has no fifth value, so that branch cannot be reached here.
- HoverText: the timing of ticks (`duration * 100` ms) and of the reset delay is not modelled. Ticks and the settled leave are separate operations. The state updates React queues and applies on the next render are applied at once.
- HoverText.HoverLetters.constructor: `split('')` splits into UTF-16 code units, while the model splits into Unicode scalar values. The two agree for text without characters outside the Basic Multilingual Plane.
- SplitText.Letters: `split("")` splits each word into UTF-16 code units, while the model splits into Unicode scalar values. Letter counts, running indices and delays therefore agree only for text without characters outside the Basic Multilingual Plane.
- SplitText: the `setTimeout` that fires the completion callback, the observer's threshold and root margin, and the CSS transition strings are not modelled. The completion time is computed, but the callback is not scheduled.
- AnimatedText and TrueFocus motion is not modelled: framer-motion springs, stagger timings and CSS. Only the offsets and the focus frame's target box are modelled.
- TrueFocus: the interval period `(animationDuration + pauseBetweenAnimations) * 1000` ms is not modelled. Firings are `Tick` calls.
- `Threads.tsx`, a WebGL shader renderer, is not part of this model.
- Pure presentation components are not part of this model: page layouts, cards, footer, navigation bar, contact buttons and details.
- The navigation menu's open/closed toggle is not modelled, because it is the same two-state machine as the contact flag. Build configuration is not modelled either.

## Findings

| source | as written | input that shows it | evidently intended | confidence | as-written member | corrected member |
|---|---|---|---|---|---|---|
| src/components/UI/AnimatedText.tsx:41 | the main text's word count is taken after `trim()`, but the words come from the untrimmed text | text `" Hi"`, highlighted text `"there"`: the words are `""`, `"Hi"`, `"there"`, the count is 1, so `"Hi"` is highlighted | the highlight starts after the words of the text as they appear in the combined text | medium (inferred from the code, not executed) | AnimatedText.LeadingSpaceHighlightsMainText | AnimatedText.IntendedHighlightIsHighlightedText |
| src/components/UI/HoverText.tsx:58-66 | `animateLetters` reads `hoveredLetterIndex` from the render the handler belongs to, so the index set just before is not yet visible | fresh `from-cursor` text `"abc"`, the mouse enters at letter 2: the sweep starts at letter 0 | a `from-cursor` sweep starts at the letter under the cursor | medium (inferred from React's state semantics, not executed) | HoverText.StaleCursorExample | HoverText.CursorExampleAtHoveredLetter |
