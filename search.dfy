/**
 * The search results page (search-results.js): the heading, the title filter
 * of the first load, the text and genre stages of the genre filter, the
 * collection of distinct genres and the results list.
 */
module Search {
  import opened Wrappers
  import opened Text
  import opened Seqs
  import opened Games

  const HeadingPrefix := "Resultados para: \""
  const AllGamesHeading := "Todos os jogos"
  const GenreSeparator := ", "

  /** `urlParams.get('q') || ''`. */
  function SearchTerm(q: Option<string>): (r: string)
    ensures q.Some? ==> r == q.value
    ensures q.None? ==> r == ""
  {
    if q.Some? then q.value else ""
  }

  /** The results heading: the quoted term, or the all-games text for an empty term. */
  function ResultsHeading(term: string): (r: string)
    ensures term != "" ==> r == HeadingPrefix + term + "\""
    ensures term == "" ==> r == AllGamesHeading
  {
    if term != "" then HeadingPrefix + term + "\"" else AllGamesHeading
  }

  /** Reads the term back out of a heading. */
  function TermOfHeading(h: string): Option<string>
  {
    if h == AllGamesHeading then Some("")
    else if |h| > |HeadingPrefix| && h[..|HeadingPrefix|] == HeadingPrefix && h[|h| - 1] == '"' then
      Some(h[|HeadingPrefix|..|h| - 1])
    else None
  }

  /** The heading determines the term: distinct terms give distinct headings. */
  lemma HeadingRoundTrip(term: string)
    ensures TermOfHeading(ResultsHeading(term)) == Some(term)
  {
    var h := ResultsHeading(term);
    if term != "" {
      assert h[0] == 'R' && AllGamesHeading[0] == 'T';
      assert h[..|HeadingPrefix|] == HeadingPrefix;
      assert h[|HeadingPrefix|..|h| - 1] == term;
    }
  }

  /** The game's lower-cased title contains the lower-cased term. */
  predicate TitleMatches(g: Game, term: string)
  {
    Contains(Lower(g.title), Lower(term))
  }

  /** The first load's filter: all games for an empty term, otherwise the title matches, in order. */
  function TitleFiltered(games: seq<Game>, term: string): (r: seq<Game>)
    ensures term == "" ==> r == games
    ensures term != "" ==> forall g :: g in r <==> g in games && TitleMatches(g, term)
    ensures term != "" ==> forall g :: multiset(r)[g] == if TitleMatches(g, term) then multiset(games)[g] else 0
  {
    if term != "" then
      var p := g => TitleMatches(g, term);
      FilterCount(games, p);
      Filter(games, p)
    else games
  }

  /** The lower-cased term occurs in the game's title, description or genre. */
  predicate TextMatches(g: Game, term: string)
  {
    || Contains(Lower(g.title), Lower(term))
    || Contains(Lower(g.description), Lower(term))
    || Contains(Lower(g.genre), Lower(term))
  }

  /** The text stage of `filterResults`, on the term taken from the page URL. */
  function TextStage(games: seq<Game>, term: string): (r: seq<Game>)
    ensures term == "" ==> r == games
    ensures term != "" ==> forall g :: g in r <==> g in games && TextMatches(g, term)
    ensures term != "" ==> forall g :: multiset(r)[g] == if TextMatches(g, term) then multiset(games)[g] else 0
    ensures multiset(r) <= multiset(games)
  {
    if term != "" then
      var p := g => TextMatches(g, term);
      FilterCount(games, p);
      Filter(games, p)
    else games
  }

  /** Every title match survives the text stage, and the title matches among its result are exactly the first load's list. */
  lemma TitleMatchesSurviveText(games: seq<Game>, term: string)
    ensures forall g :: g in TitleFiltered(games, term) ==> g in TextStage(games, term)
    ensures Filter(TextStage(games, term), g => TitleMatches(g, term)) == Filter(games, g => TitleMatches(g, term))
  {
    if term != "" {
      FilterNarrower(games, g => TitleMatches(g, term), g => TextMatches(g, term));
    } else {
      assert TextStage(games, term) == games;
    }
  }

  /** A genre checkbox: whether it is checked and its value. */
  datatype Checkbox = Checkbox(checked: bool, value: string)

  /** The values of the checked boxes, in box order. */
  function CheckedValues(boxes: seq<Checkbox>): (r: seq<string>)
    ensures forall x :: x in r <==> exists b :: b in boxes && b.checked && b.value == x
  {
    if boxes == [] then []
    else
      assert forall b :: b in boxes <==> b == boxes[0] || b in boxes[1..];
      (if boxes[0].checked then [boxes[0].value] else []) + CheckedValues(boxes[1..])
  }

  /** `selectedGenres.some(genre => game.genre.includes(genre))`: case-sensitive. */
  predicate GenreMatches(g: Game, selected: seq<string>)
  {
    exists s :: s in selected && Contains(g.genre, s)
  }

  /** The genre stage: unchanged with no selection, otherwise the games whose genre contains a selected genre. */
  function GenreStage(games: seq<Game>, selected: seq<string>): (r: seq<Game>)
    ensures |selected| == 0 ==> r == games
    ensures |selected| > 0 ==> forall g :: g in r <==> g in games && GenreMatches(g, selected)
    ensures |selected| > 0 ==> forall g :: multiset(r)[g] == if GenreMatches(g, selected) then multiset(games)[g] else 0
    ensures multiset(r) <= multiset(games) && |r| <= |games|
  {
    if |selected| > 0 then
      var p := g => GenreMatches(g, selected);
      FilterCount(games, p);
      Filter(games, p)
    else games
  }

  /** A game shown in the results list. */
  datatype ResultItem = ResultItem(id: int, cover: string, title: string, description: string, tags: seq<string>)

  /** What the results container shows. */
  datatype ResultsView = NoResults | ResultList(items: seq<ResultItem>)

  /** A game's result item: its tags are the pieces of its genre split on ", ". */
  function ItemFor(g: Game): (item: ResultItem)
    ensures item.id == g.id && item.title == g.title && |item.tags| >= 1
    ensures Join(item.tags, GenreSeparator) == g.genre
    ensures PiecesFree(item.tags, GenreSeparator)
  {
    SplitJoin(g.genre, GenreSeparator);
    SplitPiecesFree(g.genre, GenreSeparator);
    ResultItem(g.id, g.cover, g.title, g.description, Split(g.genre, GenreSeparator))
  }

  /** The view for a list of games: the no-results message, or one item per game in order. */
  ghost function ViewOf(games: seq<Game>): ResultsView
  {
    if |games| == 0 then NoResults else ResultList(seq(|games|, i requires 0 <= i < |games| => ItemFor(games[i])))
  }

  /** `displaySearchResults(games)`. */
  method DisplaySearchResults(games: seq<Game>) returns (view: ResultsView)
    ensures view == ViewOf(games)
    ensures view.NoResults? <==> |games| == 0
    ensures view.ResultList? ==> |view.items| == |games| && forall i :: 0 <= i < |games| ==> view.items[i].id == games[i].id
  {
    if |games| == 0 {
      return NoResults;
    }
    var list: seq<ResultItem> := [];
    for i := 0 to |games|
      invariant |list| == i
      invariant forall k :: 0 <= k < i ==> list[k] == ItemFor(games[k])
    {
      list := list + [ItemFor(games[i])];
    }
    view := ResultList(list);
  }

  /** Every genre piece of every game, in game order. */
  function GenrePieces(games: seq<Game>): (r: seq<string>)
    ensures forall g, x :: g in games && x in Split(g.genre, GenreSeparator) ==> x in r
    ensures forall x :: x in r ==> exists g :: g in games && x in Split(g.genre, GenreSeparator)
    decreases |games|
  {
    if games == [] then []
    else
      var init := games[..|games| - 1];
      assert forall g :: g in games ==> g in init || g == Last(games);
      assert forall g :: g in init ==> g in games;
      GenrePieces(init) + Split(Last(games).genre, GenreSeparator)
  }

  lemma GenrePiecesSnoc(games: seq<Game>, i: nat)
    requires i < |games|
    ensures GenrePieces(games[..i + 1]) == GenrePieces(games[..i]) + Split(games[i].genre, GenreSeparator)
  {
    assert games[..i + 1][..i] == games[..i];
  }

  /** The `forEach` over one game's genre pieces, adding each to the set. */
  method AddGenres(genres: seq<string>, ghost seen: seq<string>, pieces: seq<string>) returns (r: seq<string>)
    requires genres == Dedup(seen)
    ensures r == Dedup(seen + pieces)
  {
    r := genres;
    assert seen + pieces[..0] == seen;
    for j := 0 to |pieces|
      invariant r == Dedup(seen + pieces[..j])
    {
      DedupPrefixStep(seen, pieces, j);
      if pieces[j] !in r {
        r := r + [pieces[j]];
      }
    }
    assert pieces[..|pieces|] == pieces;
  }

  /** `setupGenreFilters`: the distinct genres of all games, in order of first appearance. */
  method CollectGenres(games: seq<Game>) returns (allGenres: seq<string>)
    ensures allGenres == Dedup(GenrePieces(games))
    ensures NoDuplicates(allGenres)
    ensures forall x :: x in allGenres <==> x in GenrePieces(games)
  {
    allGenres := [];
    ghost var seen: seq<string> := [];
    for i := 0 to |games|
      invariant seen == GenrePieces(games[..i])
      invariant allGenres == Dedup(seen)
    {
      var pieces := Split(games[i].genre, GenreSeparator);
      allGenres := AddGenres(allGenres, seen, pieces);
      GenrePiecesSnoc(games, i);
      seen := seen + pieces;
    }
    assert games[..|games|] == games;
  }

  /** When no genre piece repeats across the games, the collected list is every piece in game order. */
  lemma CollectedGenresOfDistinct(games: seq<Game>)
    requires NoDuplicates(GenrePieces(games))
    ensures Dedup(GenrePieces(games)) == GenrePieces(games)
  {
    DedupOfDistinct(GenrePieces(games));
  }

  /** The first load: heading, results of the title filter, and the genre list. */
  method LoadSearchResults(q: Option<string>, games: seq<Game>) returns (heading: string, view: ResultsView, genres: seq<string>)
    ensures heading == ResultsHeading(SearchTerm(q))
    ensures view == ViewOf(TitleFiltered(games, SearchTerm(q)))
    ensures genres == Dedup(GenrePieces(games))
  {
    var searchTerm := SearchTerm(q);
    heading := ResultsHeading(searchTerm);
    var filteredGames := if searchTerm != "" then Filter(games, g => TitleMatches(g, searchTerm)) else games;
    view := DisplaySearchResults(filteredGames);
    genres := CollectGenres(games);
  }

  /** `filterResults`: the text stage on the URL term, then the genre stage on the checked boxes. */
  method FilterResults(boxes: seq<Checkbox>, q: Option<string>, games: seq<Game>) returns (view: ResultsView)
    ensures view == ViewOf(GenreStage(TextStage(games, SearchTerm(q)), CheckedValues(boxes)))
  {
    var selectedGenres := CheckedValues(boxes);
    var originalSearchTerm := SearchTerm(q);
    var filteredGames := if originalSearchTerm != "" then Filter(games, g => TextMatches(g, originalSearchTerm)) else games;
    if |selectedGenres| > 0 {
      filteredGames := Filter(filteredGames, g => GenreMatches(g, selectedGenres));
    }
    view := DisplaySearchResults(filteredGames);
  }
}
