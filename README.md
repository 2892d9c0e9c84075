# PokéSearch core, modelled in Dafny

PokéSearch is a single-page front end: a search box suggests creature names
from a catalog of up to 1000 names, picking one loads that creature's detail
record, and a card displays the record. This project models the three pieces
of logic behind that screen and proves what they promise:

- `search_bar.dfy` — the suggestion filter (lower-cased substring match,
  catalog order, at most five names) and the search box's state
  (`searchTerm`, `filteredPokemon`, `isFocused`) under typing, focus, clear
  and select.
- `pokemon_card.dfy` — the card's derived values: `formatStatName`, the stat
  total and "Power", the zero-padded id, height and weight in tenths, the
  eight listed moves and the stat icons.
- `app.dfy` — the application state (`selectedPokemon`, `loading`): the
  start-up request for the default record, user selections, and the render
  conditions for the card and the spinner overlay.
- `text.dfy` — the string operations these use (`toLowerCase`,
  `toUpperCase`, `includes`, `split`, `join`, `slice(0, k)`, `padStart`,
  number `toString`), and `wrappers.dfy` — `Option` for `null`/`undefined`.

Network calls are not modelled. The catalog is a value the search box is
given (`None` until it arrives), and every detail request is settled by an
outcome passed in as a parameter, `Success(record)` or `Failure`. An async
handler is modelled as two steps split at its `await`. The first step
(`BeginSelect`) issues the request. The second (`Settle`) is the
`try`/`catch`/`finally` tail.

Three behaviours of the code are easy to miss, and the model keeps them:

- The search box has no blur handler. Only selecting a suggestion clears `isFocused`.
- Selecting a suggestion empties the search term at once. It does not wait for the detail request to succeed.
- The record a successful request returns is displayed as it is. Nothing checks that its name matches the requested one.

## Model

| member | source | states |
|---|---|---|
| `SearchBar.Matches` | src/components/SearchBar.jsx:25 | a name matches if and only if the lower-cased term occurs at some index of the lower-cased name; an empty term matches every name |
| `SearchBar.MatchingNames` | src/components/SearchBar.jsx:23-26 | the filter never grows the list, and every kept name is a catalog name that matches |
| `SearchBar.Suggestions` | src/components/SearchBar.jsx:21-32 | at most 5 suggestions; none for an empty term or an absent catalog; each one is a catalog name containing the term, ignoring case |
| `SearchBar.MatchingMembership` | src/components/SearchBar.jsx:23-26 | a name survives the filter if and only if it is in the catalog and matches |
| `SearchBar.MatchingMultiplicity` | src/components/SearchBar.jsx:23-26 | a matching name keeps exactly as many copies as the catalog has, and a non-matching name keeps none |
| `SearchBar.MatchingConcat` | src/components/SearchBar.jsx:23-26 | the filter keeps catalog order: filtering `a + b` gives the filtered `a` followed by the filtered `b` |
| `SearchBar.TakeMatchingIsFirstMatches` | src/components/SearchBar.jsx:23-27 | filtering and then keeping the first n equals a single scan that stops after n matches |
| `SearchBar.SuggestionsAreFirstMatches` | src/components/SearchBar.jsx:22-28 | for a non-empty term over a loaded catalog, the suggestions are exactly the first five matches in catalog order |
| `SearchBar.SuggestionsWhenFew` | src/components/SearchBar.jsx:23-28 | with at most five matches, a name is suggested if and only if it is a matching catalog name |
| `SearchBar.SuggestionsCaseInsensitive` | src/components/SearchBar.jsx:25 | a term and its lower-case form give identical suggestions |
| `SearchBar.NoMatchNoSuggestions` | src/components/SearchBar.jsx:23-28 | a term that no catalog name contains gives no suggestions |
| `SearchBar.TypingCharExample` | src/components/SearchBar.jsx:21-32 | "char" over bulbasaur, charmander, charizard suggests charmander then charizard |
| `SearchBar.SearchBox.constructor` | src/components/SearchBar.jsx:8-10 | the box starts with an empty term, no suggestions and no focus |
| `SearchBar.SearchBox.RefreshSuggestions` | src/components/SearchBar.jsx:21-32 | the effect stores the suggestions for the current term and catalog |
| `SearchBar.SearchBox.ReceiveCatalog` | src/components/SearchBar.jsx:12-32 | when the catalog arrives the suggestions are recomputed; term and focus are unchanged |
| `SearchBar.SearchBox.HandleInputChange` | src/components/SearchBar.jsx:34-36 | the term becomes the typed value and the suggestions are those for it; focus is unchanged |
| `SearchBar.SearchBox.Focus` | src/components/SearchBar.jsx:56 | focusing sets `isFocused` and leaves term and suggestions alone |
| `SearchBar.SearchBox.Clear` | src/components/SearchBar.jsx:69 | the clear button empties the term and the suggestions; focus is unchanged |
| `SearchBar.SearchBox.HandlePokemonSelect` | src/components/SearchBar.jsx:38-42 | the callback gets the picked name unchanged; afterwards the box is unfocused with an empty term and no suggestions |
| `SearchBar.SearchBox.ShowsDropdown` | src/components/SearchBar.jsx:80 | the dropdown shows if and only if the box is focused and there are suggestions; it never shows for an empty term or an absent catalog |
| `SearchBar.SearchBox.ShowsClearButton` | src/components/SearchBar.jsx:63 | the clear button shows if and only if the term is non-empty, and when it is hidden there are no suggestions |
| `Text.LowerChar` | src/components/SearchBar.jsx:25 | an ASCII upper-case letter maps to its lower-case letter (code point + 32); every other character is unchanged |
| `Text.UpperChar` | src/components/PokemonCard.jsx:54 | an ASCII lower-case letter maps to its upper-case letter (code point - 32); every other character is unchanged |
| `Text.Lower` | src/components/SearchBar.jsx:25 | `toLowerCase` keeps the length, maps each character by `LowerChar`, and leaves no upper-case letter |
| `Text.Contains` | src/components/SearchBar.jsx:25 | `includes` holds whenever the needle is a prefix, and never for a needle longer than the haystack |
| `Text.ContainsIffOccurs` | src/components/SearchBar.jsx:25 | the recursive `includes` holds if and only if the needle occurs at some index of the haystack |
| `Text.LowerIdempotent` | src/components/SearchBar.jsx:25 | lower-casing a lower-cased string changes nothing |
| `Text.Take` | src/components/SearchBar.jsx:27 | `slice(0, k)` has length min(k, n) and keeps the leading elements in place |
| `Text.Split` | src/components/PokemonCard.jsx:53 | `split('-')` gives one piece more than there are separators, and no piece contains the separator |
| `Text.Join` | src/components/PokemonCard.jsx:55 | joining separator-free words puts exactly one separator between neighbours: the result holds n - 1 separators |
| `Text.SplitJoin` | src/components/PokemonCard.jsx:53-55 | splitting a join of separator-free words gives back the words |
| `Text.JoinSplit` | src/components/PokemonCard.jsx:52-55 | joining the pieces of a split with the same separator gives back the input |
| `Text.Digits` | src/components/PokemonCard.jsx:181 | a decimal rendering is at least one digit, all digits, with no leading zero |
| `Text.IntToString` | src/components/PokemonCard.jsx:181 | `toString` of a non-negative number is digits that denote it; of a negative number a `-` followed by digits that denote its magnitude |
| `Text.PadStart` | src/components/PokemonCard.jsx:181 | `padStart` gives length max(width, n), ends with the input, and every position before it holds the fill character |
| `Text.DigitsRoundTrip` | src/components/PokemonCard.jsx:181 | the decimal rendering of a number reads back as that number |
| `Text.LeadingZeros` | src/components/PokemonCard.jsx:181 | zeros padded in front keep the string all digits and do not change its value |
| `PokemonCard.StatIcon` | src/components/PokemonCard.jsx:29-46 | an icon exists exactly for hp, attack, defense, special-attack, special-defense and speed |
| `PokemonCard.StatIconBijective` | src/components/PokemonCard.jsx:29-46 | different stat names never share an icon, and each of the six icons belongs to one of the six names |
| `PokemonCard.Capitalize` | src/components/PokemonCard.jsx:54 | same length; the first character upper-cased and the rest unchanged |
| `PokemonCard.FormatStatName` | src/components/PokemonCard.jsx:51-56 | `formatStatName` puts a space for each `-`, upper-cases the first character of each piece and keeps every other character |
| `PokemonCard.FormatStatNameShape` | src/components/PokemonCard.jsx:51-56 | the formatted name has the input's length and contains no `-` |
| `PokemonCard.FormatStatNameWords` | src/components/PokemonCard.jsx:52-55 | for a name without spaces, splitting the label at spaces gives exactly the `-`-separated pieces, each capitalized: one word per piece |
| `PokemonCard.TotalStats` | src/components/PokemonCard.jsx:59 | with no negative base stat, the total is non-negative and at least every single base stat |
| `PokemonCard.TotalStatsConcat` | src/components/PokemonCard.jsx:59 | the total of a concatenation is the sum of the totals of its parts |
| `PokemonCard.TotalStatsBounds` | src/components/PokemonCard.jsx:59 | with every base stat in [lo, hi], the total lies in [n * lo, n * hi] |
| `PokemonCard.Power` | src/components/PokemonCard.jsx:234 | Power exists exactly when there are stats, and is the floored mean: p * n <= total < (p + 1) * n |
| `PokemonCard.PowerWithinStatRange` | src/components/PokemonCard.jsx:59-60 | Power lies between the smallest and the largest base stat |
| `PokemonCard.PaddedId` | src/components/PokemonCard.jsx:181 | the label has length max(3, length of the id's text), ends with the id's text, and has only `0`s before it |
| `PokemonCard.PaddedIdDenotesId` | src/components/PokemonCard.jsx:181 | the id shows with max(3, digit count) digits, ends with the id's own digits, and denotes the id |
| `PokemonCard.Tenths` | src/components/PokemonCard.jsx:201-212 | a tenths label is digits, a point, one digit, then the unit |
| `PokemonCard.HeightLabel` | src/components/PokemonCard.jsx:201 | the height label ends in `m`, with whole part * 10 + the digit after the point equal to the stored height |
| `PokemonCard.WeightLabel` | src/components/PokemonCard.jsx:212 | the weight label ends in `kg`, with whole part * 10 + the digit after the point equal to the stored weight |
| `PokemonCard.TenthsReadsBack` | src/components/PokemonCard.jsx:201-212 | a height or weight label is whole part, point, one digit, unit, with whole part * 10 + digit equal to the stored value and no leading zero |
| `PokemonCard.MoveLabels` | src/components/PokemonCard.jsx:357-368 | min(8, n) moves are listed, the first ones in order, each formatted |
| `PokemonCard.RenderCard` | src/components/PokemonCard.jsx:48-376 | a card exists exactly for a present record; it shows the record's name and types, the id, height, weight, experience, Power and total labels derived from that record, one row per stat (icon, formatted name, value) and per ability (formatted name, hidden flag) in order, the full move count, and the first at most 8 formatted moves |
| `App.DetailUrl` | src/App.jsx:36 | a detail request is the fixed prefix followed by the lower-cased name |
| `App.DetailUrlIgnoresCase` | src/App.jsx:21-36 | names differing only in case request the same record; the start-up request is the detail request for "pikachu" |
| `App.Settled` | src/App.jsx:33-43 | a success replaces the displayed record wholesale; a failure leaves it as it was |
| `App.SettledAllKeepsLastSuccess` | src/App.jsx:33-43 | after a run of requests settled in order, the display holds the last successful record, or the original one if none succeeded |
| `App.RenderScreen` | src/App.jsx:83-101 | the card renders only with a record; the spinner only over a card while loading |
| `App.InitialScreenIsBlank` | src/App.jsx:14-100 | at start-up, with a request in flight and no record, neither card nor spinner renders |
| `App.PokeSearchApp.constructor` | src/App.jsx:14-15 | the application starts with no record and loading on |
| `App.PokeSearchApp.FetchPikachu` | src/App.jsx:19-28 | the request is for pikachu; a success displays the record, a failure keeps the previous one; loading ends either way |
| `App.PokeSearchApp.BeginSelect` | src/App.jsx:35-36 | loading turns on before the request for the lower-cased name is issued; the record is unchanged |
| `App.PokeSearchApp.Settle` | src/App.jsx:37-42 | a success replaces the record, a failure is swallowed and keeps it; loading ends either way |
| `App.PokeSearchApp.HandlePokemonSelect` | src/App.jsx:33-43 | a selection requests the lower-cased name, settles by the outcome, and ends with loading off |
| `App.PokeSearchApp.View` | src/App.jsx:83-101 | the spinner is never shown without the card, and the card shows exactly when a record is held |
| `App.PickSuggestion` | src/App.jsx:79 | picking a suggestion requests that name, settles the display by the outcome, and leaves the box empty and closed with its catalog unchanged |
| `App.OverlappingSelections` | src/App.jsx:33-43 | with two overlapping selections the one that settles last is displayed |

## Left out

- Network and caching: the catalog request, its never-stale query cache and the detail requests are not modelled. The catalog is a parameter and each response an outcome parameter.
- Catalog entries: the catalog is modelled as the list of names. The `url` field of each entry is never read.
- Logging: the `console.error` reports on a failed request are not modelled. They have no effect on state.
- Overlapping requests: there is no pending-request bookkeeping. `OverlappingSelections` shows one interleaving of the two steps; other schedules are not enumerated.
- Effect timing: React runs the filter effect after the render in which the term changed. The model re-runs it inside the same handler, so the one render with stale suggestions is not captured.
- Floating point: the stat bar width and its hsl colour are not modelled. Power and the tenths labels use integer arithmetic. This agrees with JavaScript's doubles for the small values records hold.
- PokemonCard.Tenths: takes non-negative values only. `toFixed` of negative numbers and of values from 1e21 up is not modelled.
- PokemonCard.TenthsReadsBack: holds for non-negative heights and weights only, for the same reason.
- PokemonCard.HeightLabel: heights are non-negative in the model, so a negative height is not covered.
- PokemonCard.WeightLabel: weights are non-negative in the model, so a negative weight is not covered.
- PokemonCard.PaddedIdDenotesId: stated for non-negative ids only. `PaddedId` does model the leading `-` of a negative id.
- Unicode: `toLowerCase` and `toUpperCase` map only the ASCII letters. String lengths count characters rather than UTF-16 code units.
- Sprites, type colours, animations and layout are not modelled. `typeColors`, framer-motion, Header, Footer and LoadingSpinner are presentation only.
- `base_experience` is modelled as an integer. A `null` value from the service is not modelled.
- Build configuration and scripts/generate-icons.js are not part of this model.
