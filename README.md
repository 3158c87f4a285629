# Text grid tag filter — a Dafny model

This project models the tag-filtering engine of the article grid script
`assets/js/text-grid.js`. The script loads a list of article records and
renders each one as a card. The user can narrow the grid by clicking tag
buttons, in OR mode (a card shows if any selected tag is on it) or AND mode
(a card shows if all selected tags are on it). The model covers:

- the fixed six-tag vocabulary with its display labels;
- the tag normaliser: canonical tags only, first occurrences only, input order kept;
- the data a card carries: its `data-tags` attribute, its labelled tag chips, its image and link;
- the parse of `data-tags` back into a tag list (split on `,`, trim, drop empties);
- the filter state: the selected tags, seeded from the URL's `tag` parameter and changed by button clicks;
- the AND toggle control;
- the per-card match, the pass over all cards, and the "button active" predicate;
- article admission (title and name present) and the newest-first date sort.

Modules, one per component of the script:

- `Wrappers` holds `Option`.
- `Tags` holds the vocabulary and the normaliser.
- `DataTags` holds join, split and trim.
- `Articles` holds admission and the sort.
- `Cards` holds the card projection.
- `Filter` holds the match, the toggle and the `FilterState` class.

`normalizeTags` and the card loop of `applyFilter` loop in the source, so
they are methods with loop invariants: `NormalizeTags` and `FilterCards`.
Each is proved against a specification function: `Normalize`, and
`ArticleMatchesFilter` applied to every card. `FilterState.ApplyFilter`
calls `FilterCards` on the current selection and mode. The shared
mutable `activeTags` list is a field of the `FilterState` class. Its
`Click` and `CheckUrlForFilters` methods reassign that field.

Notes on the code's behaviour:

- The click handler does not check a button's tag against the vocabulary.
  The button tags come from the page's HTML, so the model does not assume
  that the selection is canonical. The invariant it keeps is "no duplicates
  and never `__all`". Canonicity is preserved only when the clicked tags are
  canonical (an `ensures` of `Click`).
- The match mode is not stored in the filter. It is read from the AND
  checkbox each time the filter runs: `andFilterToggle && andFilterToggle.checked`.
  The model keeps the control as `FilterState.andToggle`, with `None` when
  the page has no such control, and reads it in `ApplyFilter`.
- Toggling a tag twice gives back the same set of tags. It gives back the
  same list only when the tag was absent at first, or already last.

## Model

| member | source | states |
|---|---|---|
| Tags.NormalizeInput | assets/js/text-grid.js:28 | what the normaliser returns: `[]` for input that is not an array, otherwise `Normalize` of the array; its meaning is stated by `Tags.Normalize` and the lemmas below |
| Tags.Normalize | assets/js/text-grid.js:29-33 | the kept tags are all canonical, free of duplicates, no more than the input, and are exactly the canonical tags that occur in the input |
| Tags.NormalizeTags | assets/js/text-grid.js:27-34 | the loop with its `seen` set returns exactly `Normalize` of the array; input that is not an array gives the empty list |
| Tags.NormalizeKeepsFirstOccurrenceOrder | assets/js/text-grid.js:29-33 | output order is the order of first occurrence in the input |
| Tags.NormalizeFixesNormalized | assets/js/text-grid.js:29-33 | a canonical duplicate-free list is returned unchanged |
| Tags.NormalizeIdempotent | assets/js/text-grid.js:27-39 | normalising twice (load pipeline, then card generator) equals normalising once |
| DataTags.Split | assets/js/text-grid.js:105 | `split(',')` yields at least one piece and no piece contains the separator |
| DataTags.SplitJoinWith | assets/js/text-grid.js:105 | joining the pieces of a split with the separator restores the string |
| DataTags.Join | assets/js/text-grid.js:43 | `tags.join(", ")`; `DataTags.ParseJoin` states that parsing gives the tags back |
| DataTags.Trim | assets/js/text-grid.js:105 | `trim()` leaves no white space at either end and adds no character; `DataTags.TrimMeaning` states what it cuts off |
| DataTags.TrimMeaning | assets/js/text-grid.js:105 | the trimmed string is a contiguous middle part of the input, and everything cut off before and after it is white space |
| DataTags.TrimPadded | assets/js/text-grid.js:105 | trimming a token preceded by white space gives the token back |
| DataTags.ParseDataTags | assets/js/text-grid.js:104-105 | split on `,`, trim each piece, drop empty pieces; `DataTags.ParsedTagsAreClean` and `DataTags.ParseJoin` state its meaning |
| DataTags.TrimNonEmpty | assets/js/text-grid.js:105 | `.map(s => s.trim()).filter(Boolean)`; `DataTags.ParsedTagsAreClean` and `DataTags.ParseJoin` state its meaning |
| DataTags.ParsedTagsAreClean | assets/js/text-grid.js:104-105 | every tag read back from an attribute is non-empty, trimmed and comma-free |
| DataTags.ParseJoin | assets/js/text-grid.js:104-105 | reading back a `", "`-join (line 43) of clean tokens returns exactly those tokens |
| Cards.Label | assets/js/text-grid.js:63 | a canonical tag shows its non-empty entry in the label table; any other string shows itself |
| Cards.HeroSrc | assets/js/text-grid.js:17 | the template `assets/img/<name>/hero.png`; `Cards.HeroSrcInjective` states that it tells names apart |
| Cards.ArticleHref | assets/js/text-grid.js:18 | the template `texte/<name>.html`; `Cards.ArticleHrefInjective` states that it tells names apart |
| Cards.HeroSrcInjective | assets/js/text-grid.js:17 | distinct names give distinct hero image paths |
| Cards.ArticleHrefInjective | assets/js/text-grid.js:18 | distinct names give distinct article links |
| Cards.CreateCard | assets/js/text-grid.js:37-81 | the card's `data-tags` is the `", "`-join of the normalised tags and parses back to the normalised tags; one chip per normalised tag, in order, labelled from the table; the image and link come from the name; title and excerpt are carried over |
| Cards.CardOfLoadedArticle | assets/js/text-grid.js:37-43 | for a loaded article, `data-tags` parses back to the article's own tag list |
| Cards.RenderArticles | assets/js/text-grid.js:83-88 | one card per article, in order; each card is `CreateCard` of its article, whose contract states its meaning |
| Articles.Admissible | assets/js/text-grid.js:157 | `a?.title && a?.name`: both fields present and non-empty; used by `Articles.AdmitAll` and `Articles.AdmitAllSingle` |
| Articles.AdmitAll | assets/js/text-grid.js:156-158 | exactly the records with a non-empty title and name are kept, and their tags are normalised |
| Articles.Admit | assets/js/text-grid.js:158 | the `map` callback: the record with its tags normalised; `Articles.AdmitAll` states that the admitted articles have non-empty title and name and canonical, duplicate-free tags |
| Articles.AdmitAllAppend | assets/js/text-grid.js:156-158 | `filter` then `map`: the articles of a concatenation are those of each part, in order |
| Articles.AdmitAllSingle | assets/js/text-grid.js:157-158 | a single record gives its article iff it is admissible |
| Articles.DateKey | assets/js/text-grid.js:159 | `String(date)`: "undefined" for a missing date, "null" for `null`, the text otherwise; `Articles.SortByDateDesc` states that the result is ordered by this key |
| Articles.LexLeTotal | assets/js/text-grid.js:159 | the string order used for dates is total |
| Articles.LexLeTransitive | assets/js/text-grid.js:159 | the string order used for dates is transitive |
| Articles.Insert | assets/js/text-grid.js:159 | inserting into a newest-first list keeps it sorted and adds exactly that article |
| Articles.SortByDateDesc | assets/js/text-grid.js:159 | the result is sorted newest first and is a permutation of the input |
| Articles.LoadArticles | assets/js/text-grid.js:156-159 | admission followed by the date sort; `Articles.LoadArticlesSpec` states its meaning |
| Articles.LoadArticlesSpec | assets/js/text-grid.js:156-159 | the loaded list is sorted, is a permutation of the admitted records, and contains only admissible records with normalised tags |
| Filter.EveryIn | assets/js/text-grid.js:108 | `every(t => cardTags.includes(t))`; `Filter.EveryMeansAll` states its meaning |
| Filter.SomeIn | assets/js/text-grid.js:109 | `some(t => cardTags.includes(t))`; `Filter.SomeMeansExists` states its meaning |
| Filter.EveryMeansAll | assets/js/text-grid.js:108 | `every(includes)` holds iff every active tag is among the card's tags |
| Filter.SomeMeansExists | assets/js/text-grid.js:109 | `some(includes)` holds iff some active tag is among the card's tags |
| Filter.Matches | assets/js/text-grid.js:103-109 | `articleMatchesFilter` on a tag list: true for an empty selection, else `every` in AND mode and `some` in OR mode; `Filter.MatchesMeaning` states its meaning |
| Filter.MatchesMeaning | assets/js/text-grid.js:102-110 | with a non-empty selection, AND mode is set inclusion and OR mode is non-empty intersection |
| Filter.ArticleMatchesFilter | assets/js/text-grid.js:102-110 | the match on a card, with its tags read back from `data-tags`; `Filter.MatchOnCard` states its meaning on generated cards |
| Filter.EmptySelectionShowsAll | assets/js/text-grid.js:103 | with no active tag, every card is visible in either mode |
| Filter.AndImpliesOr | assets/js/text-grid.js:103-109 | a card visible in AND mode is visible in OR mode |
| Filter.MatchOnCard | assets/js/text-grid.js:102-110 | on a generated card, the match is set semantics on the article's canonical tags |
| Filter.SingleTagSelection | assets/js/text-grid.js:102-110 | selecting one tag (the URL seed) shows exactly the cards carrying it, in either mode |
| Filter.RemoveAll | assets/js/text-grid.js:141 | `filter(t => t !== tag)` removes every occurrence of the tag, keeps every other tag, and keeps lists duplicate-free |
| Filter.RemoveOnlyThat | assets/js/text-grid.js:141 | in a duplicate-free list, removing a tag leaves the others in their order |
| Filter.Toggled | assets/js/text-grid.js:141-142 | remove the tag if present, else append it; the toggle lemmas below state its meaning |
| Filter.Clicked | assets/js/text-grid.js:137-143 | `__all` clears the selection, any other tag is toggled; `Filter.ClickFlipsOnlyItsButton` states its effect on the buttons |
| Filter.ToggledNoDup | assets/js/text-grid.js:141-142 | a toggle never introduces a duplicate |
| Filter.ToggledRemovesPresent | assets/js/text-grid.js:141 | toggling a present tag removes it and changes nothing else |
| Filter.ToggleTwiceSameSet | assets/js/text-grid.js:141-142 | toggling the same tag twice gives back the same set of tags |
| Filter.ToggleTwiceAbsent | assets/js/text-grid.js:141-142 | toggling an absent tag twice gives back the very same list |
| Filter.ToggleTwicePresent | assets/js/text-grid.js:141-142 | toggling a present tag twice moves it to the end, so the list differs unless the tag was last |
| Filter.ClickFlipsOnlyItsButton | assets/js/text-grid.js:126-142 | clicking a tag button flips that button's active state and no other tag button's |
| Filter.ButtonActive | assets/js/text-grid.js:126-132 | "show all" is active iff nothing is selected, any other button iff its tag is selected; `Filter.AllButtonExclusive` and `Filter.ClickFlipsOnlyItsButton` state its meaning |
| Filter.AllButtonExclusive | assets/js/text-grid.js:129-130 | the "show all" button is active iff no other button is |
| Filter.FilterState.constructor | assets/js/text-grid.js:91 | the selection starts empty and valid |
| Filter.FilterState.CheckUrlForFilters | assets/js/text-grid.js:94-100 | the selection becomes exactly `[tag]` iff the tag is non-empty and canonical, and is otherwise unchanged |
| Filter.FilterState.Click | assets/js/text-grid.js:136-143 | `__all` clears the selection; another tag is appended if absent, or removed with every other tag kept; no duplicates arise; canonical clicks keep the selection canonical |
| Filter.FilterState.SetAndToggle | assets/js/text-grid.js:148 | a change of the AND control sets the mode it reports |
| Filter.FilterState.UseAnd | assets/js/text-grid.js:106 | `andFilterToggle && andFilterToggle.checked`: AND mode iff the control exists and is checked; `Filter.FilterState.ApplyFilter` states the visibility it selects |
| Filter.FilterCards | assets/js/text-grid.js:113-119 | the loop over the cards: each card's visibility is its match, `any` holds iff some card is visible, and with no selection every card is visible |
| Filter.FilterState.ApplyFilter | assets/js/text-grid.js:112-124 | each card's visibility is its match; `any` holds iff some card is visible; the no-results message shows iff none is; all cards show when nothing is selected; scrolling is requested iff a tag is selected |
| Filter.Init | assets/js/text-grid.js:154-165 | after loading, the selection is the URL seed or empty, the cards are those of the loaded articles, and visibility and `any` are those of the filter |

## Left out

- Fetching the feed, `res.json()`, the promise chain and the `console.error` on failure (lines 152-153 and 167) are I/O. The model starts from the parsed array of records.
- The feed's shape: a bare array, or an object with an `articles` array (line 155). The model starts from the array.
- `URLSearchParams` and `window.location` (lines 95-96): the model takes the `tag` parameter's value, or `None`, as input.
- DOM construction and mutation are left out: elements, `innerHTML`, `style.display`, `classList.toggle`. The model returns visibility booleans, the no-results flag and the button-active predicate instead.
- `window.scrollTo` and `offsetTop` (line 122) are modelled only as the boolean `scroll`, which holds iff a tag is selected.
- Event-listener wiring (lines 134-149) is left out. Each click and each change of the AND control is a method call on `FilterState`.
- Articles.SortByDateDesc: compares dates in plain lexicographic order of Unicode characters instead of `localeCompare`, which orders strings by the collation of the browser's locale. Only sortedness and permutation are proved; the stability of the engine's sort is not.
- Articles.DateKey: a `date` field is modelled as absent (sorted as "undefined"), `null` (sorted as "null", as `String(null)` gives) or a string. A numeric or other non-string date, which the source sorts by its `String` conversion, is not representable in the model.
- Articles.Admissible: JavaScript truthiness of `a?.title && a?.name` is modelled for optional string fields only: present and non-empty. A `null` entry of the feed behaves like a record without a title.
- Tags.NormalizeTags: the elements of a tags array are modelled as strings. A non-string element is never canonical, so it behaves like any non-canonical string.
- Cards.Label: prototype properties of the label object, such as `LABELS["constructor"]`, are not modelled. The function is only applied to normalised, canonical tags.
- Filter.ArticleMatchesFilter: the `|| ''` fallback for a card without a `data-tags` attribute (line 104) is not modelled, because every generated card has that attribute.
- The excerpt is carried through as a string. How `innerHTML` renders it (line 76) is not modelled.
