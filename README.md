# Searchable user gallery — verified model of its core

The gallery page (`js/scripts.js`) shows one card per fetched user, a search
box that hides the cards whose name does not match, and one detail overlay per
user. The overlay has prev/next buttons that skip users the current search
hides. This project models that core in Dafny:

- `jsstrings.dfy` (module `JsStrings`) covers the JavaScript string built-ins the
  page relies on. These are `toLowerCase` over ASCII and `includes` (a
  left-to-right scan, proved equal to "occurs somewhere"). They also include
  `substring`, with its clamping and swapping of bounds, and
  `replace(/[^\d]/g, "")`.
- `search.dfy` (module `Search`) holds `nameMatches` and the `filterGallery`
  loop. The loop is a method over an array of visibility flags that runs
  parallel to the card names.
- `navigation.dfy` (module `Navigation`) holds `nextModalIndex` and
  `previousModalIndex`. They are methods with loops, proved equal to the ghost
  functions `NextMatch` and `PreviousMatch`. Lemmas prove that those functions
  find the nearest matching index.
- `formatting.dfy` (module `Formatting`) holds `buildAddress`, `buildDOB` and
  `formatCell`.
- `gallery.dfy` (module `GalleryPage`) holds class `Gallery`, the page state.
  This is the search text, the cards' visibility, which overlays are attached
  to the body, and the nav-button containers each overlay holds. Its methods
  are the search events, `showModalFor`, the close handler, the add/remove of
  the nav buttons, and clicks on prev/next. `Valid()` is the page invariant:
  - at most one overlay is attached;
  - each card's visibility equals the match of its name against the current
    search text;
  - an attached overlay holds buttons;
  - every button leads to a real overlay on its own side.

Each overlay's buttons are a sequence of containers. `addModalNavButtons`
appends a new container every time an overlay is shown, even when it is
already attached. `removeModalNavButtons` removes only the first container.
A button stores the target computed when its container was built, and -1
marks a hidden button. This is what the code does: the prev/next targets are
computed once, when the buttons are added (js/scripts.js:200-201). They are
not recomputed on each click. The model follows the code.

## Model

| member | source | states |
|---|---|---|
| `JsStrings.IncludesIsOccurs` | js/scripts.js:285-286 | `includes` returns true exactly when the needle occurs at some position of the haystack |
| `JsStrings.LowerIdempotent` | js/scripts.js:285-286 | lowering an already-lowered string changes nothing |
| `JsStrings.DigitsCount` | js/scripts.js:316 | removing non-digits keeps each digit as often as it occurs and keeps nothing else |
| `JsStrings.DigitsOfDigits` | js/scripts.js:316 | a string made only of digits passes through unchanged |
| `JsStrings.DigitsAreDigits` | js/scripts.js:316 | the result holds only digits and is no longer than the input |
| `JsStrings.SubstringSymmetric` | js/scripts.js:307-309 | `substring` gives the same result when its two bounds are swapped |
| `JsStrings.SubstringLength` | js/scripts.js:317 | how long a clamped `substring` is, including past the end of the string |
| `Search.NameMatchesIsSubstring` | js/scripts.js:284-287 | a name matches iff the lowered search text occurs in the lowered first+last, or in first+" "+last |
| `Search.EmptySearchMatchesAll` | js/scripts.js:284-287 | the empty search text matches every name |
| `Search.NameMatchesIgnoresCase` | js/scripts.js:284-287 | the result does not depend on the letter case of the names or of the search text |
| `Search.NameMatchesLoweredSearch` | js/scripts.js:285-286 | searching for the lowered text gives the same result as the text itself |
| `Search.AcrossTheSpaceMatches` | js/scripts.js:282-287 | any end of the first name followed by any start of the last name matches, with or without a space |
| `Search.LastNamePieceMatches` | js/scripts.js:284-287 | any piece of the last name alone matches |
| `Search.FilterGallery` | js/scripts.js:276-280 | afterwards card i is displayed iff its name matches the search text, for every i |
| `Navigation.NextMatchIsNearest` | js/scripts.js:248-256 | the next target is -1 iff no later card matches; otherwise it is a later matching card, and no card between them matches |
| `Navigation.PreviousMatchIsNearest` | js/scripts.js:260-268 | the previous target is -1 iff no earlier card matches; otherwise it is the nearest earlier matching card |
| `Navigation.NoNavigationPastTheEnds` | js/scripts.js:248-268 | next from the last card and prev from the first card are both -1 |
| `Navigation.NoMatchNoNavigation` | js/scripts.js:248-268 | when the search text matches no card, both directions are -1 from every index |
| `Navigation.NextThenPrevious` | js/scripts.js:248-268 | from a matching card, going next and then prev comes back to it |
| `Navigation.NextModalIndex` | js/scripts.js:248-256 | the forward scan returns exactly the next match |
| `Navigation.PreviousModalIndex` | js/scripts.js:260-268 | the backward scan returns exactly the previous match |
| `GalleryPage.FreshButtonsAreNearest` | js/scripts.js:196-231 | a shown overlay's buttons lead to the nearest matching card on each side, and a button is hidden exactly when there is none |
| `GalleryPage.OnlyAttachedIsAtMostOne` | js/scripts.js:171-179 | a state with one overlay attached satisfies the at-most-one invariant |
| `GalleryPage.Gallery.constructor` | js/scripts.js:66-83 | builds one card and one detached, button-less overlay per user, and filters the cards by the text already in the search box |
| `GalleryPage.Gallery.SetSearchText` | js/scripts.js:32-38 | an input or submit event stores the text, and each card is displayed iff its name matches it |
| `GalleryPage.Gallery.Submit` | js/scripts.js:32-35 | filtering again with the same text leaves every card's visibility as it was |
| `GalleryPage.Gallery.AddModalNavButtons` | js/scripts.js:196-231 | appends one container to overlay k holding the previous and next match computed now; nothing else changes |
| `GalleryPage.Gallery.RemoveModalNavButtons` | js/scripts.js:237-244 | succeeds iff overlay k is attached, and then drops its first container; on failure nothing changes |
| `GalleryPage.Gallery.CloseModal` | js/scripts.js:182-190 | closes overlay k by removing its buttons and then detaching it, which leaves no overlay attached; fails without change if k is not attached |
| `GalleryPage.Gallery.ShowModalFor` | js/scripts.js:171-179 | afterwards overlay k is the only attached overlay, and it has gained one fresh button container |
| `GalleryPage.Gallery.ClickNav` | js/scripts.js:209-230 | a hidden button does nothing. Otherwise overlay k is closed and the captured target becomes the only attached overlay, with fresh buttons |
| `GalleryPage.LongSearchMatchesNothing` | js/scripts.js:284-287 | a search text longer than the spaced full name matches nothing |
| `GalleryPage.LoadIgnoresPendingSearch` | js/scripts.js:66-83 | the code as written shows a new card even when its name does not match the text already typed |
| `GalleryPage.SmithMatches` | js/scripts.js:284-287 | "smith" matches every user whose last name is Smith |
| `GalleryPage.JonesDoesNotMatchSmith` | js/scripts.js:284-287 | "smith" does not match Bob Jones |
| `GalleryPage.SmithNavigation` | js/scripts.js:248-268 | under "smith", Alice, Bob, Cara: next from Alice is Cara, prev from Cara is Alice, and nothing follows Cara |
| `Formatting.BuildAddressUsesStateIff` | js/scripts.js:296-302 | the address shows the state iff the country is exactly "United States", and shows the country otherwise |
| `Formatting.StateIgnoredAbroad` | js/scripts.js:299-301 | outside the United States the state has no effect on the address |
| `Formatting.LowerCaseCountryIsAbroad` | js/scripts.js:297 | the comparison is case-sensitive: "united states" gets the country form |
| `Formatting.AddressLineInjective` | js/scripts.js:298-300 | the layout determines the region: different regions give different lines |
| `Formatting.BuildDOBShape` | js/scripts.js:305-311 | for a date of at least 10 characters the result is 10 characters: month "/" day "/" year, cut from positions 5-7, 8-10 and 0-4 |
| `Formatting.BuildDOBRoundTrip` | js/scripts.js:305-311 | the ISO prefix YYYY-MM-DD can be rebuilt from the MM/DD/YYYY result |
| `Formatting.BuildDOBExample` | js/scripts.js:305-311 | "1990-05-14T00:00:00Z" gives "05/14/1990" |
| `Formatting.FormatCellTenDigits` | js/scripts.js:314-319 | with at least 10 digits the result is "(" d[0..3] ") " d[3..6] "-" d[6..10], 14 characters long |
| `Formatting.FormatCellLength` | js/scripts.js:314-319 | the result is 4 punctuation characters plus at most 10 digits |
| `Formatting.FormatCellKeepsDigits` | js/scripts.js:314-319 | the digits of the result are the first (up to ten) digits of the input |
| `Formatting.FormatCellIdempotent` | js/scripts.js:314-319 | formatting an already formatted number changes nothing |
| `Formatting.FormatCellExample` | js/scripts.js:314-319 | "+1 (123) 456-7890" gives "(112) 345-6789" because the leading 1 is a digit and is kept |
| `Formatting.FormatCellShortExample` | js/scripts.js:314-319 | with 7 digits, "555-1234" gives "(555) 123-4" because the clamped substrings shorten the last group |

## Left out

- The fetch (`getUserData`, js/scripts.js:51-62) and the network error message are not modelled. The loaded users are an input sequence of names given to the `Gallery` constructor.
- DOM construction is not modelled. This covers `addGalleryCard`, `buildModalList`, `buildModalContainer`, `addModalTextParagraph` and the search form setup (js/scripts.js:16-31, 86-167). It only creates nodes.
- Event-listener registration and the event loop are not modelled. Input and submit events, card clicks, the close button and prev/next clicks are explicit method calls: `SetSearchText`, `Submit`, `ShowModalFor`, `CloseModal` and `ClickNav`.
- `toLowerCase` is modelled for the ASCII letters A-Z only. Other letters are left as they are, unlike full Unicode case mapping.
- The regular expression in `formatCell` is modelled as a filter that keeps '0' to '9'. That is what `\d` means in JavaScript without the `u` flag.
- Element ids, `style.display` and `style.visibility` are kept only as flags. Card visibility is a boolean, and a hidden nav button is a target of -1.
- The formatters take the record's fields, not the `user` object. The street number and the postcode come as the text a template literal renders from them.
- `removeModalNavButtons` looks its buttons up by document-wide id. It is modelled through the at-most-one-attached invariant: it succeeds iff the overlay is attached, and then removes its first container.
- When several containers are stacked on one overlay, which one the user clicks is the parameter `c` of `ClickNav`.
- `GalleryPage.Gallery.constructor`: applies the search text already typed. The source does not, and the finding below describes this.

## Findings

| source | as written | input that shows it | evidently intended | confidence | as-written member | corrected member |
|---|---|---|---|---|---|---|
| js/scripts.js:66-83 | the cards added once the fetch completes are all displayed, whatever the search box already holds | the user types "Christopher" before the fetch of Jane Doe completes; her card is shown though "Christopher" does not match her name | every card is displayed iff its name matches the current search text | medium, not executed | `GalleryPage.LoadIgnoresPendingSearch` | `GalleryPage.Gallery.constructor` |
