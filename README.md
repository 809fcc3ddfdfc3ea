# Pokémon filter-and-page cache, modelled in Dafny

This project models the logic inside the `Pokemons` React component
(`src/components/Pokemons/Pokemons.tsx`). The component shows the PokeAPI
catalogue 48 Pokémon per page and lets the user filter by one or more types.
A selection of several types is an AND: only Pokémon that belong to every
selected type are shown. Three caches keep work from being repeated:

- `pokemonsByPage`: unfiltered page number → items;
- `pokemonsByType`: type key → page number → items;
- `fetchUrlsByType`: type key → the filtered URL list.

The model is split by concern:

| file | module | contents |
|---|---|---|
| `seqs.dfy` | `Seqs` | a stable `Filter` and the subsequence relation |
| `strings.dfy` | `Strings` | JavaScript `split`/`join` on a one-character separator |
| `key_normalizer.dfy` | `KeyNormalizer` | `convertKeyType` (a loop, as in the source) and the canonical key it computes |
| `intersection.dfy` | `Intersection` | `findCommonPokemon`, a seedless `reduce` of `filter`/`some`, with a reference definition |
| `paging.dfy` | `Paging` | page slices, `lastPage`, the Prev/Next enable rules |
| `component.dfy` | `Component` | the selection toggle and the class `Pokemons`: state, caches and handlers |

How the component is modelled:

- Each `useState` variable is a field of the class `Pokemons`. Each handler is a
  method that assigns those fields.
- The item fetch (`fetch(url)` then `response.json()` then the item mapping) is
  the constant function `fetchItem` of the class.
- `Promise.all` is the order-preserving map `Materialize`.
- A ghost field `requested` records every URL fetched, in order. It makes the
  claim "a cache hit fetches nothing" checkable.

The model keeps three pieces of behaviour exactly as the code writes them.

1. **Stale closure in `onSelectType`.** The handler calls `setSelectedTypes` and
   `setPage(0)`. Everything after those calls still sees the state from before
   the click. `OnSelectType` therefore assigns the new selection and page 0 first.
   `RespondToSelection` then works on the captured selection and page:
   - With types still selected, page `p` of the new filtered list is fetched and
     stored as `{[p]: items}`. Here `p` is the page before the click, not page 0.
   - With no type left, `fetchPokemonsWithUrls` runs for the selection as it
     stood before the click (`FetchPokemonsFor(seen, p)`).
2. **The per-type page map is replaced.** `fetchAndSetPokemonsByType` writes
   `{...prev, [key]: {[page]: items}}`. The key's earlier pages are dropped, not
   merged (`FetchAndSetPokemonsByType`, `Served`).
3. **A fetch that is not awaited.** In `fetchPokemonsWithUrls` a filtered page that
   is not cached starts `fetchAndSetPokemonsByType` without waiting for it. The
   handler then sets `count` and `pokemons = []`. The model runs the handler's
   own setters first and the fetch's setters after them. The net result is the
   fetched items.

Two invariants are kept:

- `CachesCoherent`: every key with a cached URL list also has a page map. This
  makes the lookup `pokemonsByType[key][page]` at line 214 safe.
- `Sound`:
  - the catalogue's type names are valid and distinct, and the selection holds
    catalogue types;
  - a page cached under a type key is exactly that page of the key's URL list,
    fetched;
  - every cached URL list is the intersection computed for some selection whose
    key is that key (`ListsCached`);
  - the URL list of the current key is the one in view.

It follows that under a filter, `FetchPokemonsWithUrls` shows exactly the
current page of the filtered list, whether the items come from the cache or from
a fetch. Because a key determines the selected types (`SameKeySameTypes`, the
converse of `SameSelectionSameKey`), a list cached for one click order is also
the right list for any other: after a click, the list in view holds exactly the
Pokémon found in every selected type (`ViewIsCommon`).

In these places the model follows the code rather than a tidier design:

- An empty selection gives the key `""` (the code's falsy key), not a separate
  sentinel.
- `findCommonPokemon([])` returns `[]` rather than being an invalid call.
- Per-type cache entries are overwritten as described in item 2 above, not
  written once per page.
- `onSelectType` serves the page from before the click, not page 0.
- The Next bound is `page + 1 === lastPage`, not `page + 1 < lastPage`; see Findings.
- `count`, and so `lastPage = ceil(count/48)`, is set only by `getPokemons` (the
  server's total) and by `fetchPokemonsWithUrls` when it has URLs. After a selection
  change it keeps its earlier value until the effect re-run; with an empty list of
  URLs it keeps that value. The navigation bounds are therefore stated against
  `lastPage`, not against the length of the list in view.

## Model

| member | source | states |
|---|---|---|
| KeyNormalizer.ConvertKeyType | src/components/Pokemons/Pokemons.tsx:30-39 | the loop over the catalogue returns the canonical key: the catalogue names found among the `-`-separated pieces of the key, kept in catalogue order and joined with `-` |
| KeyNormalizer.KeyIsCatalogueSubsequence | src/components/Pokemons/Pokemons.tsx:30-38 | the key joins a subsequence of the catalogue that holds exactly the catalogue names present among the split pieces |
| KeyNormalizer.SelectedByMembership | src/components/Pokemons/Pokemons.tsx:33-37 | the names kept depend only on which names were selected, not on their order or repetition |
| KeyNormalizer.KeyOrderIndependent | src/components/Pokemons/Pokemons.tsx:30-38 | two click orders of the same selection, each `-`-joined, normalise to the same key, when names are non-empty and contain no `-` |
| KeyNormalizer.SameKeySameNames | src/components/Pokemons/Pokemons.tsx:30-38 | the converse: two `-`-joined selections of valid names with the same key select exactly the same catalogue names |
| KeyNormalizer.KeyOfJoin | src/components/Pokemons/Pokemons.tsx:30-38 | with valid names, normalising a `-`-join gives the catalogue names among its parts, in catalogue order, joined by `-` |
| KeyNormalizer.KeyEmptyIff | src/components/Pokemons/Pokemons.tsx:30-38 | with valid catalogue names, the key is empty exactly when no catalogue name was selected |
| KeyNormalizer.EmptySelectionKey | src/components/Pokemons/Pokemons.tsx:134-139 | no selection gives the empty key, which the lookup treats as the unfiltered path |
| KeyNormalizer.KeyIdempotent | src/components/Pokemons/Pokemons.tsx:30-38 | normalising a normalised key returns it unchanged |
| Strings.Split | src/components/Pokemons/Pokemons.tsx:31 | `split` never returns an empty list, and no piece contains the separator |
| Strings.Join | src/components/Pokemons/Pokemons.tsx:38 | `join` of one part is that part, and a join of two or more parts contains the separator |
| Strings.JoinInjective | src/components/Pokemons/Pokemons.tsx:38 | two lists of non-empty, `-`-free parts with the same join are equal |
| Strings.SplitJoin | src/components/Pokemons/Pokemons.tsx:31 | splitting the `-`-join of one or more parts, none containing `-`, gives the parts back |
| Strings.JoinSplit | src/components/Pokemons/Pokemons.tsx:31 | joining the pieces of a split with the same separator gives the string back |
| Intersection.FindCommonPokemon | src/components/Pokemons/Pokemons.tsx:41-52 | no lists give no URLs; otherwise there are at most as many URLs as entries in the first list |
| Intersection.KeepInMembers | src/components/Pokemons/Pokemons.tsx:45-49 | one `filter` step keeps exactly the entries whose name occurs in the current list, in their order |
| Intersection.Reduce | src/components/Pokemons/Pokemons.tsx:43-50 | the seedless fold never yields more entries than the first list; `ReduceIsCommon` gives its exact result |
| Intersection.Urls | src/components/Pokemons/Pokemons.tsx:51 | one URL per entry: the i-th URL is the i-th entry's `url` |
| Intersection.CommonIsSubsequence | src/components/Pokemons/Pokemons.tsx:43-50 | the kept entries are a subsequence of the first list |
| Intersection.ReduceIsCommon | src/components/Pokemons/Pokemons.tsx:43-50 | the fold of filters equals one stable filter of the first list by "occurs in every other list" |
| Intersection.FindCommonIsIntersection | src/components/Pokemons/Pokemons.tsx:43-51 | the result is the URL list of a subsequence of the first list holding exactly the first-list entries whose name occurs in every list, in first-list order |
| Intersection.FindCommonSingle | src/components/Pokemons/Pokemons.tsx:42-51 | one list gives its own URLs, unchanged and in order |
| Intersection.CommonHasName | src/components/Pokemons/Pokemons.tsx:44-50 | a name survives the fold exactly when it occurs in every list |
| Intersection.CommonNamesOrderIndependent | src/components/Pokemons/Pokemons.tsx:43-51 | selections holding the same member lists in any order keep the same names |
| Paging.PageSlice | src/components/Pokemons/Pokemons.tsx:100-103 | a page has `min(size, max(0, n - page*size))` elements, and its i-th is element `page*size + i` of the list |
| Paging.LastPage | src/components/Pokemons/Pokemons.tsx:270 | `ceil(count/size)`: the smallest page count whose pages cover `count` elements |
| Paging.PagesArePrefix | src/components/Pokemons/Pokemons.tsx:141-144 | the first k pages concatenated are the first `k*size` elements, or all of them |
| Paging.PagesReassemble | src/components/Pokemons/Pokemons.tsx:270 | pages `0 .. lastPage-1` concatenated reproduce the list exactly: nothing duplicated, nothing missing |
| Paging.PageNonEmptyIff | src/components/Pokemons/Pokemons.tsx:270 | a page is non-empty exactly when its index is below `lastPage` |
| Paging.NextAsWrittenLeavesEmptyResult | src/components/Pokemons/Pokemons.tsx:316 | with `count` 0, `lastPage` is 0 and the written rule leaves Next enabled on page 0, so a click leads to page 1, at or past `lastPage` |
| Paging.NavigationStaysOnAPage | src/components/Pokemons/Pokemons.tsx:306-319 | under the corrected Next rule and the Prev rule, the page stays below `lastPage` (or at 0 when `lastPage` is 0); the two Next rules agree whenever `lastPage > 0` |
| Component.FindType | src/components/Pokemons/Pokemons.tsx:198 | `find` returns a type with the clicked name, the first such in the catalogue |
| Component.ToggleType | src/components/Pokemons/Pokemons.tsx:186-200 | the clicked name is selected after the click exactly when it was not before, and every selected type was selected before or comes from the catalogue |
| Component.ToggleInCatalogue | src/components/Pokemons/Pokemons.tsx:196-199 | a click keeps a selection of catalogue types within the catalogue |
| Component.ToggleFlipsName | src/components/Pokemons/Pokemons.tsx:186-200 | after a click, a name is selected exactly when it was selected before, flipped for the clicked name |
| Component.ToggleOrder | src/components/Pokemons/Pokemons.tsx:191-200 | removing keeps the other types in order; adding appends the clicked type at the end |
| Component.ToggleTwiceRestores | src/components/Pokemons/Pokemons.tsx:186-200 | clicking an unselected type twice gives back the selection |
| Component.ToggleKeepsDistinct | src/components/Pokemons/Pokemons.tsx:186-200 | a click keeps the selected type names distinct |
| Component.SameSelectionSameKey | src/components/Pokemons/Pokemons.tsx:209-210 | two selections with the same type names, clicked in any order, have the same cache key |
| Component.SelectionKeyNames | src/components/Pokemons/Pokemons.tsx:209-210 | with valid names, the key built at lines 131-132 and 209-210 is the selected catalogue names in catalogue order joined by `-` |
| Component.SameKeySameTypes | src/components/Pokemons/Pokemons.tsx:209-211 | the converse: two selections of catalogue types with the same key hold the same types, and so the same member lists |
| Component.NonEmptySelectionKey | src/components/Pokemons/Pokemons.tsx:209-211 | a non-empty selection of catalogue types never gets the falsy key `""` |
| Component.CachedListIsCommon | src/components/Pokemons/Pokemons.tsx:211-213 | a URL list computed for one selection is, for any selection with the same key, the URLs of one selected type's entries holding exactly the names found in every selected type |
| Component.ListsCachedExtend | src/components/Pokemons/Pokemons.tsx:224-227 | writing a selection's intersection under its own key keeps every cached URL list accounted for by a selection with that key |
| Component.Pokemons.Materialize | src/components/Pokemons/Pokemons.tsx:104-109 | `Promise.all` over the URLs: one item per URL, the i-th being the fetched i-th URL |
| Component.Pokemons.LastPage | src/components/Pokemons/Pokemons.tsx:270 | `lastPage` is the least page count whose pages of 48 cover `count` |
| Component.Pokemons.ViewIsCommon | src/components/Pokemons/Pokemons.tsx:211-227 | under the invariant, while types are selected the URL list in view holds exactly the Pokémon found in every selected type, whichever click order cached it |
| Component.Pokemons.constructor | src/components/Pokemons/Pokemons.tsx:55-72 | the initial state: count and page 0, empty lists and maps; the invariants hold |
| Component.Pokemons.GetPokemonTypes | src/components/Pokemons/Pokemons.tsx:74-91 | the catalogue is stored; with nothing selected and valid names the per-type caches stay sound, and with valid distinct names and no URL list cached yet (or the same catalogue) the whole invariant is kept |
| Component.Pokemons.GetPokemons | src/components/Pokemons/Pokemons.tsx:176-182 | the total and the full URL list are stored; with nothing selected the invariant is kept |
| Component.Pokemons.FetchAndSetPokemonsByType | src/components/Pokemons/Pokemons.tsx:98-125 | page `atPage` of the URLs is fetched, shown, logged, and stored as the key's only page; the caches stay coherent and sound |
| Component.Pokemons.ServeKey | src/components/Pokemons/Pokemons.tsx:134-165 | the four lookup branches: a cached filtered page is shown without a fetch; a missing one is fetched and replaces the key's page map; a cached unfiltered page is shown without a fetch; a missing one is fetched and added, other pages untouched |
| Component.Pokemons.FetchPokemonsFor | src/components/Pokemons/Pokemons.tsx:127-133 | no URLs change nothing; otherwise the page is served under the selection's key, and under a filter the items shown are that page of the URL list |
| Component.Pokemons.FetchPokemonsWithUrls | src/components/Pokemons/Pokemons.tsx:127-174 | the current page is served under the current key; the invariant is kept; under a filter the items shown are exactly the current page of the filtered list |
| Component.Pokemons.ShowTypes | src/components/Pokemons/Pokemons.tsx:211-230 | a key with a cached URL list shows it and its cached page (or nothing); a new key intersects the selected types' members, caches the list, and fetches page `p`; the per-type pages stay sound and every cached URL list stays accounted for by a selection with its key |
| Component.Pokemons.CacheNewKey | src/components/Pokemons/Pokemons.tsx:215-229 | a key without a cached list: the intersection is put in view and cached under the key, page `p` is fetched and stored; both invariants are kept when the key is the selection's own |
| Component.Pokemons.CacheUrls | src/components/Pokemons/Pokemons.tsx:223-227 | `setFetchUrls` and the write of the list under its key; the cached lists stay accounted for when the key is the selection's own |
| Component.Pokemons.ShowSelection | src/components/Pokemons/Pokemons.tsx:209-230 | a non-empty selection is shown under its normalised key, whose URL list is then the one in view; the per-type pages stay sound and every cached URL list stays accounted for by a selection with its key |
| Component.Pokemons.RespondToSelection | src/components/Pokemons/Pokemons.tsx:205-231 | an empty selection serves the page of the selection the closure saw; a non-empty one is shown at the page the closure saw; the per-type pages stay sound and every cached URL list stays accounted for by a selection with its key |
| Component.Pokemons.OnSelectType | src/components/Pokemons/Pokemons.tsx:184-243 | the selection is toggled, the page becomes 0, the catalogue is untouched, the invariants are kept, the caches change as described above, and while types stay selected the URL list in view holds exactly the Pokémon found in every selected type |
| Component.Pokemons.OnGoToNextPage | src/components/Pokemons/Pokemons.tsx:262-264 | clicked while the button is enabled under the written rule (line 316), the page goes up by one; with `lastPage > 0` it stays below `lastPage = ceil(count/48)`; with `lastPage` 0 it leaves page 0 for a page at or past `lastPage` |
| Component.Pokemons.OnBackToPreviousPage | src/components/Pokemons/Pokemons.tsx:266-268 | clicked while the button is enabled (`page !== 0`, line 309), the page goes down by one and stays below `lastPage = ceil(count/48)` if it was |
| Component.ServeTwice | src/components/Pokemons/Pokemons.tsx:134-162 | serving the same page twice shows the same items both times and fetches at most one page of URLs in total |
| Component.SelectAndRefresh | src/components/Pokemons/Pokemons.tsx:184-203 | a type click followed by the effect re-run (lines 258-260): the selection is toggled, the page is 0, the invariants hold, with a filter that has URLs the items shown are page 0 of the key's cached URL list, and that list holds exactly the Pokémon found in every selected type |

## Left out

- Network I/O: every `fetch`/`response.json()` call and the PokeAPI payload shape
  (`sprites.other["official-artwork"]`). An item fetch is the function `fetchItem`.
  A failed fetch (a rejected promise) is not modelled: the source has no error path.
- Asynchrony and React scheduling:
  - concurrent `Promise.all`;
  - promises resolving after later clicks;
  - batching of setters;
  - the `useEffect` re-runs at lines 245-260.

  Handlers run to completion one at a time. The effects appear as explicit calls
  (`GetPokemonTypes`, `GetPokemons`, `FetchPokemonsWithUrls`) that a caller
  sequences. Races therefore fall outside the model, for example a click while a
  fetch is still pending: the `pokemonsByType[key]` lookup at line 214 can then
  meet a missing key.
- `hasFetchedPokemonTypes` (line 61): it only makes sure the catalogue is requested once.
- The `?limit=1200` request and `data.count`: `GetPokemons` takes the total and the URLs as parameters.
- JSX, `classnames`, styles and `console.log` (lines 272-322), and all of `PokemonItem.tsx`.
- `pokemonTypeNames` (`useMemo`, lines 93-96) is recomputed as `TypeNames(pokemonTypes)` where used.
- Component.Pokemons.GetPokemonTypes: keeping the invariant is stated only for an empty selection with valid names, and in full only when no URL list is cached yet or the catalogue is unchanged. The source requests the catalogue once, on mount (`hasFetchedPokemonTypes`, line 61), before any type button exists; a different catalogue arriving later could change the key of every cached list.
- Component.Pokemons.GetPokemons: keeping the invariant is stated only for an empty selection, the only case in which the source requests the full list (lines 252-256).
- Component.Pokemons.FetchPokemonsWithUrls: the unfiltered page cache is not claimed sound. Just after the last type is deselected, `fetchUrls` may still hold a filtered list while the key is already empty.

## Findings

| source | as written | input that shows it | evidently intended | confidence | as-written member | corrected member |
|---|---|---|---|---|---|---|
| src/components/Pokemons/Pokemons.tsx:316 | Next is disabled only when `page + 1 === lastPage` | the first render, before the full URL list arrives: `count` is still its initial 0 (line 55), so `lastPage = 0`; on page 0 Next is enabled and a click moves to page 1, so page 0 is skipped once the list arrives | Next enabled only while `page + 1 < lastPage` | not executed | Paging.NextAsWrittenLeavesEmptyResult | Paging.NavigationStaysOnAPage |
