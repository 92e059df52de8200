# Guará Launcher: selection, filter and index rules

Guará Launcher is an Electron game launcher. Its main process finds and starts
a game's executable and serves local files. Its pages show a home screen with
featured carousels and game grids, a catalogue with genre and tag filters and
a monthly top 10, a search results page, a game details page with a thumbnail
strip, a shared side menu and switchable colour themes.

This project models the deterministic rules inside that code, over plain
values. Strings are `seq<char>`, games are records, and the class lists of
page elements are sets of strings. The parts of the code that update state in
place become classes: the two carousels, the catalogue grid, the side menu,
the thumbnail strip and the document styled by a theme. Their methods are
proved against specification functions. The pure filter, sort and lookup
rules become functions, with lemmas that relate them to reference rules.

Modules, one per source file, plus three shared ones:

- `Wrappers`: `Option` and `Result`.
- `Text`: the string operations the scripts use. These are ASCII lower-casing,
  `includes`/`indexOf`, `endsWith`, `replace` of the first occurrence, and
  `split`/`join` on a non-empty separator.
- `Seqs`: order-keeping filter and first-occurrence dedup (a JavaScript `Set`).
- `Games`: the game record of `games.json`.
- `Launcher` (main.js): the executable picker and the `file:` URL rewrite.
- `Home` (script.js): the featured carousel, the media gallery, the grid
  sections, the catalogue's genre and tag filters, and the top 10.
- `Search` (search-results.js): the heading, the title filter, the text and
  genre stages, the distinct genre list and the results list.
- `Sidebar` (components/sidebar.js): the sidebar file and icon choice, the
  current page, and the active menu entry.
- `GameDetails` (game-details.js): the game lookup, the thumbnail strip with
  one active thumbnail, and the main media area.
- `ThemeManager` (components/theme-manager.js): the theme table, `applyTheme`
  and `loadTheme`.

Inputs the scripts read from the page, the URL, the network or local storage
become parameters. Examples: the folder listing, the pathname, the parsed `id`
parameter, the checkbox states, and the outcome of the sidebar fetch.

## Model

| member | source | states |
|---|---|---|
| Text.Lower | main.js:63 | `toLowerCase` character by character: the same length, the k-th upper-case ASCII letter mapped to the k-th letter of the lower-case alphabet, every other character unchanged |
| Text.IndexOf | main.js:75 | the first index at which the pattern occurs, or none; it does not occur before that index (or anywhere, when none) |
| Text.ContainsOccurs | main.js:75 | `includes` holds exactly when the pattern occurs at some position |
| Text.ReplaceFirst | main.js:22 | `replace` with a string pattern: unchanged when the pattern does not occur; a leading occurrence is replaced |
| Text.ReplaceFirstAt | main.js:22 | wherever the first occurrence is, exactly that occurrence is replaced and the text around it kept |
| Text.Split | main.js:24 | `split` always gives at least one piece |
| Text.SplitShape | main.js:24 | exactly one piece (the whole string) iff the separator does not occur; otherwise the string starts with the first piece and the separator |
| Text.SplitPiecesFree | main.js:24 | no piece of a split contains the separator |
| Text.SplitJoin | search-results.js:58 | joining the pieces of a split with the same separator gives the string back |
| Text.SplitLast | components/sidebar.js:77 | the string ends with the last piece, and with the separator followed by the last piece when there are several |
| Text.SuffixAfterLast | components/sidebar.js:77 | the text after the last separator character is unique: two such suffixes are equal |
| Seqs.Filter | main.js:63 | `Array.prototype.filter`: an element is kept iff it passes, and the result is no longer |
| Seqs.FilterCount | main.js:63 | a kept element keeps its multiplicity, a rejected one is dropped, and the result is a sub-multiset of the input |
| Seqs.FilterAppend | main.js:63 | filtering keeps order: the filter of a concatenation is the concatenation of the filters |
| Seqs.FilterNarrower | search-results.js:117-130 | filtering by a narrower predicate after a wider one is filtering by the narrower one |
| Seqs.FilterFirst | main.js:63 | the first kept element is the first element that passes |
| Seqs.FilterKeepsAll | script.js:469-475 | a filter every element passes returns the list unchanged |
| Seqs.FilterAgree | script.js:471-487 | filters whose predicates agree on every element keep the same elements |
| Seqs.Dedup | search-results.js:76-81 | a `Set` filled in order: no duplicates, exactly the elements of the input, no longer than it |
| Seqs.DedupSnoc | search-results.js:80 | `add` of one more element appends it iff it is new |
| Seqs.DedupOfDistinct | search-results.js:76-81 | a list without duplicates passes through the set unchanged |
| Launcher.ExeFiles | main.js:63 | exactly the entries whose lower-cased name ends in ".exe", with their multiplicities |
| Launcher.ExeFilesAppend | main.js:63 | the executables keep their listing order |
| Launcher.ExeFilesHead | main.js:63-70 | the default choice, the first executable, is the first listing entry that is an executable |
| Launcher.FindMentioning | main.js:75 | `find`: the first executable whose lower-cased name contains the name, or none contains it |
| Launcher.FirstMentionedName | main.js:70-80 | finds the first priority name some executable mentions, and no earlier name is mentioned |
| Launcher.MainExeUnique | main.js:70-80 | the selection rule picks exactly one executable |
| Launcher.PickMainExe | main.js:70-80 | the loop's result is in the list. It is the first executable when no priority name matches. Otherwise it is the first executable containing the earliest priority name that any executable contains |
| Launcher.FindAndRunExe | main.js:62-92 | an error with the message "Nenhum arquivo executável (.exe) encontrado" iff the folder has no executable; otherwise success with the chosen name, which is an executable of the listing |
| Launcher.InterceptedPath | main.js:22-24 | the path has no '?', is a prefix of the URL after its first "file:///" is removed, and is followed there by '?' when shorter |
| Launcher.InterceptedPathOfFileUrl | main.js:22-24 | a URL made of "file:///", a '?'-free path, '?' and a query is rewritten back to the path |
| Home.PrevIndex | script.js:196 | `(i - 1 + n) % n` lies in [0, n) and is i - 1, or n - 1 when i is 0 |
| Home.NextIndex | script.js:197 | `(i + 1) % n` lies in [0, n) and is i + 1, or 0 when i is n - 1 |
| Home.PrevNextInverse | script.js:217-229 | stepping back after stepping forward, or forward after back, returns to the starting slide |
| Home.FeaturedCarousel.constructor | script.js:178-243 | n items and n indicators, the first of each active, then slide 0 shown |
| Home.MarkSlide | script.js:192-199 | item k gains 'active' and its wrapped neighbours gain 'prev' and 'next'; nothing else changes |
| Home.FeaturedCarousel.ClearItems | script.js:185-187 | every item loses 'active', 'next' and 'prev' and keeps its other classes |
| Home.FeaturedCarousel.ClearDots | script.js:188 | every dot loses 'active' and keeps its other classes |
| Home.FeaturedCarousel.UpdateCarousel | script.js:183-200 | every item loses 'active', 'next' and 'prev' and every dot loses 'active'. Then item and dot k alone are active, and 'prev' and 'next' sit exactly on the wrapped neighbours. No other class changes |
| Home.FeaturedCarousel.ClickPrev | script.js:217-222 | shows the previous slide, wrapping. Items and dots keep their number, and every class other than the carousel marks is kept |
| Home.FeaturedCarousel.ClickNext | script.js:224-229 | shows the next slide, wrapping. Items and dots keep their number, and every class other than the carousel marks is kept |
| Home.FeaturedCarousel.ClickDot | script.js:231-237 | shows the clicked dot's slide. Items and dots keep their number, and every class other than the carousel marks is kept |
| Home.RenderedEntries | script.js:99-150 | the item loop appends an element for every entry except games missing from the catalogue |
| Home.IndicatorCountAsWritten | script.js:164-169 | one indicator per entry, at least as many as the items |
| Home.MissingGameUnpairsDots | script.js:104-169 | a section whose first game is missing gets one item and two indicators |
| Home.IndicatorCount | script.js:164-169 | corrected: never more indicators than the code as written makes, and at least one whenever some entry renders |
| Home.BuildFeaturedCarousel | script.js:99-243 | corrected construction: no carousel when nothing renders; otherwise as many items as indicators, slide 0 shown |
| Home.MediaItems | script.js:837-844 | the images followed by the videos, each in order and typed; exactly the cover image when there are none; never empty |
| Home.MediaItemsSources | script.js:837-840 | unless the cover stands in, the gallery's sources are exactly the images followed by the videos |
| Home.GalleryPrev | script.js:909-913 | one back, except at the first item |
| Home.GalleryNext | script.js:915-919 | one on, except at the last item, and it stays in [0, len - 1] |
| Home.GalleryEnds | script.js:909-919 | 'prev' at the first item and 'next' at the last are no-ops |
| Home.GalleryPrevUndoesNext | script.js:909-919 | 'prev' undoes a 'next' that moved |
| Home.MediaGallery.constructor | script.js:898-922 | the gallery starts at item 0 with no offset |
| Home.MediaGallery.UpdateCarousel | script.js:904-907 | the index is set and the offset is index * 100 |
| Home.MediaGallery.Prev | script.js:909-913 | takes a `GalleryPrev` step and keeps the index in range |
| Home.MediaGallery.Next | script.js:915-919 | takes a `GalleryNext` step and keeps the index in range |
| Home.GamesMap | script.js:17 | the map's keys are exactly the games' ids, and each key maps to a game of the list with that id |
| Home.GamesMapLastWins | script.js:17 | for a repeated id, the last game with that id is kept |
| Home.SectionGames | script.js:254-256 | no longer than the id list; each game is the catalogue's game for one of its ids |
| Home.SectionGamesAppend | script.js:254-256 | the games keep the order of the ids |
| Home.SectionGamesAllKnown | script.js:254-256 | when every id is known, exactly the catalogue's game for each id in turn |
| Home.SelectedGenres | script.js:465-467 | exactly the lower-cased labels of the checked boxes |
| Home.GenreFiltered | script.js:469-475 | unchanged with no genre checked. Otherwise a game is kept iff one of its lower-cased tags is selected, as often as it occurs in the list |
| Home.GenreFilteredAllMatch | script.js:469-475 | checking genres every game carries leaves the grid unchanged |
| Home.TagFiltered | script.js:484-487 | the games with a tag equal to the clicked text once lower-cased, each as often as it occurs in the list |
| Home.TagIsSingleGenre | script.js:465-487 | clicking a tag shows the same games as checking only that genre |
| Home.InsertByPlays | script.js:456 | inserting makes the list one game longer |
| Home.InsertByPlaysCount | script.js:456 | inserting adds exactly one copy of the game and nothing else |
| Home.InsertByPlaysOrdered | script.js:456 | insertion keeps the list ordered by plays, most first |
| Home.SortByPlays | script.js:456 | a permutation of the games with plays non-increasing |
| Home.InsertByPlaysStable | script.js:456 | among the games with the inserted game's plays, it comes first and the others keep their order |
| Home.SortByPlaysStable | script.js:456 | the sort is stable: for every plays count, the games with that count keep their catalogue order |
| Home.TopPrefixStable | script.js:456-457 | for every plays count, a leading part of the sorted list holds a leading part of the catalogue's games with that count |
| Home.PrefixDominates | script.js:457 | a prefix of the sorted list is ordered, drawn from it, and no game after it has more plays |
| Home.TopGames | script.js:456-457 | min(10, n) games drawn from the list, plays non-increasing, no game left out has more plays than one kept; among tied games, those kept come first in catalogue order |
| Home.Catalogue.constructor | script.js:440-443 | the page's games and tags, an empty grid and top list |
| Home.Catalogue.PopulateGames | script.js:446-451 | the grid shows exactly the given games |
| Home.Catalogue.PopulateTopGames | script.js:454-460 | the top list is `TopGames` of the page's games |
| Home.Catalogue.OnGenreChange | script.js:463-479 | the grid shows the genre filter of the checked boxes; tags untouched |
| Home.Catalogue.OnTagClick | script.js:482-494 | the grid shows the tag filter, and the clicked tag alone is active |
| Search.SearchTerm | search-results.js:5 | the 'q' parameter, or "" when it is absent |
| Search.ResultsHeading | search-results.js:8-9 | `Resultados para: "<term>"` for a non-empty term, 'Todos os jogos' for an empty one |
| Search.HeadingRoundTrip | search-results.js:8-9 | the term can be read back from the heading, so distinct terms give distinct headings |
| Search.TitleFiltered | search-results.js:16-20 | all games for an empty term. Otherwise the games whose lower-cased title contains the lower-cased term, each with its multiplicity |
| Search.TextStage | search-results.js:117-123 | all games for an empty term. Otherwise a game is kept iff the lower-cased term occurs in its lower-cased title, description or genre, as often as it occurs in the list |
| Search.TitleMatchesSurviveText | search-results.js:117-123 | every title match survives the text stage, and the title matches among its output are exactly the first load's list |
| Search.CheckedValues | search-results.js:104-106 | exactly the values of the checked boxes |
| Search.GenreStage | search-results.js:126-130 | unchanged with no selection; otherwise a game is kept iff its genre string contains a selected genre (case-sensitive), as often as it occurs in the list |
| Search.ItemFor | search-results.js:49-61 | the item carries the game's id and title; its tags, joined with ", ", give the genre back, and no tag contains ", " |
| Search.DisplaySearchResults | search-results.js:37-71 | the no-results message iff there are no games, otherwise one item per game in order |
| Search.GenrePieces | search-results.js:79-81 | a string is collected iff it is a piece of some game's genre split on ", " |
| Search.GenrePiecesSnoc | search-results.js:79-81 | one more game contributes its genre pieces at the end |
| Search.AddGenres | search-results.js:80 | adding one game's pieces extends the set in order |
| Search.CollectedGenresOfDistinct | search-results.js:74-84 | when no piece repeats, the set holds every piece in game order |
| Search.CollectGenres | search-results.js:74-84 | the loops compute the set in insertion order: every genre piece appears exactly once and nothing else does |
| Search.LoadSearchResults | search-results.js:2-29 | the heading, the results of the title filter, and the genre list |
| Search.FilterResults | search-results.js:103-132 | the results of the text stage, on the URL term, followed by the genre stage |
| Sidebar.SidebarPath | components/sidebar.js:6-8 | './sidebar.html' iff the pathname contains '/components/', else './components/sidebar.html' |
| Sidebar.IconPath | components/sidebar.js:32-34 | '../images/guara-icon.png' iff the pathname contains '/components/', else './images/guara-icon.png' |
| Sidebar.CurrentPage | components/sidebar.js:77 | non-empty and free of '/'. It is 'index.html', or a suffix of the pathname, preceded by '/' when the pathname has one |
| Sidebar.CurrentPageOf | components/sidebar.js:77 | the text after the last '/' is the current page when it is not empty |
| Sidebar.CurrentPageDefault | components/sidebar.js:77 | a pathname ending in '/' gives 'index.html' |
| Sidebar.CurrentPageEmpty | components/sidebar.js:77 | an empty pathname gives 'index.html' |
| Sidebar.WithActive | components/sidebar.js:80-88 | a linked item is active iff its href equals the current page, and its other classes are kept; an item without a link is untouched |
| Sidebar.WithActiveIdempotent | components/sidebar.js:79-88 | marking twice for the same page is marking once |
| Sidebar.FallbackItems | components/sidebar.js:54-58 | the five entries index, biblioteca, loja, conquistas and configuracoes |
| Sidebar.FallbackHrefsDistinct | components/sidebar.js:54-58 | the five hrefs are pairwise distinct |
| Sidebar.Menu.constructor | components/sidebar.js:3-4 | an empty menu on a page with or without a sidebar container |
| Sidebar.Menu.SetupNavigation | components/sidebar.js:75-103 | after the loop, a linked item is active exactly when its href is the current page; each item's link is kept; items without a link are unchanged |
| Sidebar.Menu.LoadSidebarFallback | components/sidebar.js:29-72 | with a container: the icon chosen by `IconPath` and the five entries, marked for the current page, each keeping its link and other classes; without one, nothing changes |
| Sidebar.Menu.IncludeSidebar | components/sidebar.js:2-26 | requests the file chosen by `SidebarPath`; marks the loaded menu (only 'active' changes), or falls back when loading fails; nothing without a container |
| Sidebar.AtMostOneActive | components/sidebar.js:79-88 | with distinct hrefs, at most one linked item ends up active |
| Sidebar.FallbackActive | components/sidebar.js:54-87 | in the fallback menu an entry is active iff its href is the current page |
| GameDetails.FindGame | game-details.js:11-16 | the index of the first game whose id equals the parsed id, or none when no game has it |
| GameDetails.MainMediaFor | game-details.js:28-45 | exactly one child for 'image' (an img with the game's title) or 'video' (a video with controls and autoplay), showing the element; none for any other type |
| GameDetails.NewThumbnail | game-details.js:58-71 | a new thumbnail shows its element and is not active |
| GameDetails.ThumbnailsFor | game-details.js:57-79 | one thumbnail per image and then one per video, each in source order |
| GameDetails.DetailsPage.constructor | game-details.js:24-26 | no thumbnails and no active thumbnail |
| GameDetails.DetailsPage.UpdateMainMedia | game-details.js:28-45 | the container holds exactly `MainMediaFor` of the element and type |
| GameDetails.DetailsPage.HandleThumbnailClick | game-details.js:47-54 | the clicked thumbnail is active, the previous one no longer is, at most one is active, nothing else changes, and the main media shows the element |
| GameDetails.DetailsPage.ClickThumbnail | game-details.js:61-77 | a click shows that thumbnail's own element and type |
| GameDetails.DetailsPage.AddThumbnail | game-details.js:58-62 | appends one inactive thumbnail |
| GameDetails.DetailsPage.LoadGameDetails | game-details.js:2-93 | nothing changes when no game matches. Otherwise it sets the title and builds the strip in order. Only the first image thumbnail is active, and the main media shows it (or the background when there are no images). A missing images or videos field stops loading there |
| GameDetails.DetailsPage.AddImages | game-details.js:57-66 | one thumbnail per image, and the first one clicked |
| GameDetails.DetailsPage.AddVideos | game-details.js:69-79 | one thumbnail per video, none clicked |
| GameDetails.InitiallyFirstImage | game-details.js:63-77 | initially the active thumbnail, if any, is an image thumbnail; no video thumbnail is active |
| ThemeManager.ThemesShareKeys | components/theme-manager.js:2-21 | every theme sets the same four properties in the same order |
| ThemeManager.KnownThemes | components/theme-manager.js:2-21 | the known names are exactly dark, grey and fancy |
| ThemeManager.ThemesDistinct | components/theme-manager.js:2-21 | each theme names each property once |
| ThemeManager.SetProperties | components/theme-manager.js:31-33 | the properties are added to the style; other properties are untouched; with distinct names each gets its value |
| ThemeManager.SetPropertiesIdempotent | components/theme-manager.js:31-33 | setting a theme's properties twice is setting them once |
| ThemeManager.Toggle | components/theme-manager.js:37 | an option is active iff its data-theme is the name; its other classes are kept |
| ThemeManager.ToggleAll | components/theme-manager.js:36-38 | every option is toggled, in place |
| ThemeManager.Applied | components/theme-manager.js:28-43 | an unknown name changes nothing. A known one stores the name |
| ThemeManager.AppliedKnown | components/theme-manager.js:29-41 | a known theme sets each of its four properties to its table value and touches no other. Exactly the options for that theme become active, and their other classes are kept. The name is stored |
| ThemeManager.ToggleAllIdempotent | components/theme-manager.js:36-38 | toggling twice for the same name is toggling once |
| ThemeManager.AppliedIdempotent | components/theme-manager.js:28-43 | applying the same theme twice equals applying it once |
| ThemeManager.StoredTheme | components/theme-manager.js:24 | the stored theme, or 'dark' when none, or an empty one, is stored |
| ThemeManager.ReloadKeepsTheme | components/theme-manager.js:23-43 | after a known theme is applied, loading restores that theme and changes nothing more |
| ThemeManager.Document.SetAll | components/theme-manager.js:31-33 | the loop sets the theme's properties in order |
| ThemeManager.Document.ToggleOptions | components/theme-manager.js:36-38 | the loop toggles every option |
| ThemeManager.Document.ApplyTheme | components/theme-manager.js:28-43 | the document becomes `Applied` of its old state and the name |
| ThemeManager.Document.LoadTheme | components/theme-manager.js:23-26 | the document becomes `Applied` of its old state and the stored theme, or 'dark' |

## Findings

| source | as written | input that shows it | evidently intended | confidence | as-written member | corrected member |
|---|---|---|---|---|---|---|
| script.js:164-169 | One indicator is made per entry of `section.items`, but line 106 appends no item for a game missing from the catalogue | Entries [game 7, not in the catalogue; an advertisement] give one item and two indicators. Clicking the second indicator calls `updateCarousel(1)`, and `items[1]` is undefined. With every entry missing, `updateCarousel(0)` at line 243 already fails | One indicator per rendered item, and no carousel when nothing renders | not executed | Home.MissingGameUnpairsDots | Home.BuildFeaturedCarousel |

## Left out

- Downloading games, with pausing, resuming and cancelling, is handled by a session manager that is not in these source files. It is not modelled.
- Electron start-up, windows, IPC wiring, dialogs and the preload bridge (main.js:8-51, 124-132; preload.js) are process glue.
- Launcher.FindAndRunExe: reading the folder, joining the path and starting the process with `exec` are I/O. Only the name selection and its result are modelled. A failure of the started process is not modelled.
- Launcher.InterceptedPath: `path.isAbsolute`, `path.join`, `decodeURIComponent` and `path.normalize` (main.js:27-33) are library behaviour. The model stops at the string rewrite of lines 22-24.
- The filesystem handlers are one-shot I/O: `check-game-exists` (main.js:54-57) and `create-directory`, `write-file`, `extract-zip` and `delete-file` (main.js:99-122).
- Text.Lower: only ASCII letters are lower-cased; JavaScript's full Unicode `toLowerCase` is not modelled.
- Loading `games.json` and `home-sections.json` with `fetch`, and the error paths of failed loads (`showError`, the `catch` blocks), are network I/O. The loaded lists are parameters.
- Home.FeaturedCarousel: the 5-second auto-rotation timer and its stop on hover are scheduling. One tick of it is `ClickNext`.
- Home.Catalogue: script.js:446-475 reads a global `games` that the file never declares. The model takes it as the catalogue's game list. The grid, tags and top list are modelled by their contents, not their HTML.
- Home.Catalogue.OnTagClick: the tag's `textContent` is taken as its label.
- Rendering (HTML templates, `innerHTML`, card and ranking elements), scrolling and hover arithmetic, page transitions and the game-details view of script.js outside the media gallery are UI.
- Search.FilterResults: the function reads the search box into `searchTerm` and never uses it. As written, the model filters by the URL term only.
- The search bar's Enter handler (search-results.js:141-151) builds a URL with `trim` and `encodeURIComponent`, which are library behaviour.
- Sidebar.Menu.IncludeSidebar: the fetch is a parameter (the loaded menu items, or failure). The HTML of the fallback menu beyond its icon and navigation entries is not modelled.
- The menu link's click handler (components/sidebar.js:89-100) is a timed page navigation.
- GameDetails.FindGame: `parseInt` is not modelled. The parsed id is a parameter, with `None` standing for NaN.
- GameDetails.DetailsPage.LoadGameDetails: the page is assumed to hold the `mainImage` element that lines 20-21 update. The thumbnails' inner HTML, the play button and the thumbnail scroll arrows (game-details.js:82-126) are not modelled.
- ThemeManager.Applied: `themes[themeName]` in JavaScript also finds inherited object members such as `toString`. The model's table holds only the three themes.
- configuracoes.js is UI glue around the folder dialog and local storage. Its single-active theme option is the rule `ThemeManager.Toggle` models.
