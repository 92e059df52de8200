/**
 * The home page script (script.js): the featured carousel and the media
 * gallery as index state machines, the grid sections' game lists, the genre
 * and tag filters of the catalogue grid, and the monthly top-10 ranking.
 */
module Home {
  import opened Wrappers
  import opened Text
  import opened Seqs
  import opened Games

  const ActiveClass := "active"
  const PrevClass := "prev"
  const NextClass := "next"

  // ---------------------------------------------------------------------
  // Featured carousel (script.js:178-244)
  // ---------------------------------------------------------------------

  /** `(i - 1 + n) % n`: the slide before `i`, wrapping to the last. */
  function PrevIndex(i: int, n: int): (r: int)
    requires 0 <= i < n
    ensures 0 <= r < n
    ensures r == if i == 0 then n - 1 else i - 1
  {
    (i - 1 + n) % n
  }

  /** `(i + 1) % n`: the slide after `i`, wrapping to the first. */
  function NextIndex(i: int, n: int): (r: int)
    requires 0 <= i < n
    ensures 0 <= r < n
    ensures r == if i == n - 1 then 0 else i + 1
  {
    (i + 1) % n
  }

  /** Stepping forward and then back (or back and then forward) returns to the starting slide. */
  lemma PrevNextInverse(i: int, n: int)
    requires 0 <= i < n
    ensures PrevIndex(NextIndex(i, n), n) == i
    ensures NextIndex(PrevIndex(i, n), n) == i
  {
  }

  /** The animation classes `updateCarousel(k)` gives item `j` of `n`. */
  function Marks(k: int, n: int, j: int): set<string>
    requires 0 <= k < n
  {
    (if j == k then {ActiveClass} else {})
    + (if j == PrevIndex(k, n) then {PrevClass} else {})
    + (if j == NextIndex(k, n) then {NextClass} else {})
  }

  /** The three carousel classes are distinct. */
  lemma CarouselClassesDistinct()
    ensures ActiveClass != PrevClass && ActiveClass != NextClass && PrevClass != NextClass
  {
    assert |ActiveClass| == 6 && |PrevClass| == 4 && PrevClass[0] != NextClass[0];
  }

  /** Which of the three classes item `j` receives when slide `k` is shown. */
  lemma MarksHas(k: int, n: int, j: int)
    requires 0 <= k < n
    ensures ActiveClass in Marks(k, n, j) <==> j == k
    ensures PrevClass in Marks(k, n, j) <==> j == PrevIndex(k, n)
    ensures NextClass in Marks(k, n, j) <==> j == NextIndex(k, n)
  {
    CarouselClassesDistinct();
  }

  /** The three `classList.add` calls of `updateCarousel`: 'active' on item `k`, then 'prev' and 'next' on its neighbours. */
  function MarkSlide(c: seq<set<string>>, k: int): (r: seq<set<string>>)
    requires 0 <= k < |c|
    ensures |r| == |c| && forall j :: 0 <= j < |c| ==> r[j] == c[j] + Marks(k, |c|, j)
  {
    var n := |c|;
    var prevIndex, nextIndex := PrevIndex(k, n), NextIndex(k, n);
    var c1 := c[k := c[k] + {ActiveClass}];
    var c2 := c1[prevIndex := c1[prevIndex] + {PrevClass}];
    c2[nextIndex := c2[nextIndex] + {NextClass}]
  }

  /** The featured carousel of a "featured" home section: the class lists of its items and indicators. */
  class FeaturedCarousel {
    var items: seq<set<string>>
    var dots: seq<set<string>>
    var currentIndex: nat

    ghost predicate Valid()
      reads this
    {
      |items| == |dots| && |items| > 0 && currentIndex < |items|
    }

    /** Slide `k` is shown: exactly item `k` and dot `k` are active, and its neighbours carry 'prev' and 'next'. */
    ghost predicate Shows(k: int)
      reads this
      requires Valid()
    {
      && currentIndex == k
      && (forall j :: 0 <= j < |items| ==> (ActiveClass in items[j] <==> j == k))
      && (forall j :: 0 <= j < |dots| ==> (ActiveClass in dots[j] <==> j == k))
      && (forall j :: 0 <= j < |items| ==> (PrevClass in items[j] <==> j == PrevIndex(k, |items|)))
      && (forall j :: 0 <= j < |items| ==> (NextClass in items[j] <==> j == NextIndex(k, |items|)))
    }

    /** Builds `n` items and `n` indicators, the first of each marked active, then shows slide 0. */
    constructor (n: nat)
      requires n > 0
      ensures Valid() && |items| == n && Shows(0)
      ensures forall j :: 0 <= j < n ==> items[j] == {"featured-item"} + Marks(0, n, j)
      ensures forall j :: 0 <= j < n ==> dots[j] == {"indicator"} + (if j == 0 then {ActiveClass} else {})
    {
      items := seq(n, j => if j == 0 then {"featured-item", ActiveClass} else {"featured-item"});
      dots := seq(n, j => if j == 0 then {"indicator", ActiveClass} else {"indicator"});
      currentIndex := 0;
      new;
      UpdateCarousel(0);
    }

    /** `updateCarousel(newIndex)`: clears 'active', 'next' and 'prev' everywhere, then marks slide `newIndex` and its neighbours. */
    method UpdateCarousel(newIndex: nat)
      requires Valid() && newIndex < |items|
      modifies this
      ensures Valid() && |items| == old(|items|) && Shows(newIndex)
      ensures forall j :: 0 <= j < |items| ==>
        items[j] == (old(items[j]) - {ActiveClass, NextClass, PrevClass}) + Marks(newIndex, |items|, j)
      ensures forall j :: 0 <= j < |dots| ==>
        dots[j] == (old(dots[j]) - {ActiveClass}) + (if j == newIndex then {ActiveClass} else {})
    {
      var n := |items|;
      ClearItems();
      ClearDots();
      currentIndex := newIndex;
      dots := dots[currentIndex := dots[currentIndex] + {ActiveClass}];
      items := MarkSlide(items, currentIndex);
      forall j | 0 <= j < n
        ensures ActiveClass in items[j] <==> j == newIndex
        ensures PrevClass in items[j] <==> j == PrevIndex(newIndex, n)
        ensures NextClass in items[j] <==> j == NextIndex(newIndex, n)
      {
        MarksHas(newIndex, n, j);
      }
    }

    /** The first `forEach` of `updateCarousel`: 'active', 'next' and 'prev' come off every item. */
    method ClearItems()
      modifies this
      ensures |items| == old(|items|) && dots == old(dots) && currentIndex == old(currentIndex)
      ensures forall j :: 0 <= j < |items| ==> items[j] == old(items[j]) - {ActiveClass, NextClass, PrevClass}
    {
      var i := 0;
      while i < |items|
        invariant 0 <= i <= |items| == old(|items|) && dots == old(dots) && currentIndex == old(currentIndex)
        invariant forall j :: 0 <= j < i ==> items[j] == old(items[j]) - {ActiveClass, NextClass, PrevClass}
        invariant forall j :: i <= j < |items| ==> items[j] == old(items[j])
      {
        items := items[i := items[i] - {ActiveClass, NextClass, PrevClass}];
        i := i + 1;
      }
    }

    /** The second `forEach` of `updateCarousel`: 'active' comes off every indicator. */
    method ClearDots()
      modifies this
      ensures |dots| == old(|dots|) && items == old(items) && currentIndex == old(currentIndex)
      ensures forall j :: 0 <= j < |dots| ==> dots[j] == old(dots[j]) - {ActiveClass}
    {
      var i := 0;
      while i < |dots|
        invariant 0 <= i <= |dots| == old(|dots|) && items == old(items) && currentIndex == old(currentIndex)
        invariant forall j :: 0 <= j < i ==> dots[j] == old(dots[j]) - {ActiveClass}
        invariant forall j :: i <= j < |dots| ==> dots[j] == old(dots[j])
      {
        dots := dots[i := dots[i] - {ActiveClass}];
        i := i + 1;
      }
    }

    /** The 'prev' button. */
    method ClickPrev()
      requires Valid()
      modifies this
      ensures Valid() && |items| == old(|items|) && Shows(PrevIndex(old(currentIndex), |items|))
      ensures |dots| == old(|dots|)
      ensures forall j :: 0 <= j < |items| ==>
        items[j] == (old(items[j]) - {ActiveClass, NextClass, PrevClass}) + Marks(PrevIndex(old(currentIndex), |items|), |items|, j)
      ensures forall j :: 0 <= j < |dots| ==>
        dots[j] == (old(dots[j]) - {ActiveClass}) + (if j == PrevIndex(old(currentIndex), |items|) then {ActiveClass} else {})
    {
      UpdateCarousel(PrevIndex(currentIndex, |items|));
    }

    /** The 'next' button (and the body of the auto-rotation timer). */
    method ClickNext()
      requires Valid()
      modifies this
      ensures Valid() && |items| == old(|items|) && Shows(NextIndex(old(currentIndex), |items|))
      ensures |dots| == old(|dots|)
      ensures forall j :: 0 <= j < |items| ==>
        items[j] == (old(items[j]) - {ActiveClass, NextClass, PrevClass}) + Marks(NextIndex(old(currentIndex), |items|), |items|, j)
      ensures forall j :: 0 <= j < |dots| ==>
        dots[j] == (old(dots[j]) - {ActiveClass}) + (if j == NextIndex(old(currentIndex), |items|) then {ActiveClass} else {})
    {
      UpdateCarousel(NextIndex(currentIndex, |items|));
    }

    /** A click on indicator `index`. */
    method ClickDot(index: nat)
      requires Valid() && index < |dots|
      modifies this
      ensures Valid() && |items| == old(|items|) && Shows(index)
      ensures |dots| == old(|dots|)
      ensures forall j :: 0 <= j < |items| ==>
        items[j] == (old(items[j]) - {ActiveClass, NextClass, PrevClass}) + Marks(index, |items|, j)
      ensures forall j :: 0 <= j < |dots| ==>
        dots[j] == (old(dots[j]) - {ActiveClass}) + (if j == index then {ActiveClass} else {})
    {
      UpdateCarousel(index);
    }
  }

  /** An entry of a featured section in home-sections.json. */
  datatype FeaturedEntry = GameEntry(id: int) | AdEntry(title: string) | OtherEntry

  /** The entries for which the item loop appends an element: all but games missing from the catalogue. */
  function RenderedEntries(entries: seq<FeaturedEntry>, gamesMap: map<int, Game>): (r: seq<FeaturedEntry>)
    ensures forall e :: e in r <==> e in entries && !(e.GameEntry? && e.id !in gamesMap)
    ensures |r| <= |entries|
  {
    Filter(entries, (e: FeaturedEntry) => !(e.GameEntry? && e.id !in gamesMap))
  }

  /** As written: one indicator for every entry of the section, rendered or not. */
  function IndicatorCountAsWritten(entries: seq<FeaturedEntry>, gamesMap: map<int, Game>): (r: nat)
    ensures r >= |RenderedEntries(entries, gamesMap)|
  {
    |entries|
  }

  /** A section whose first game is missing gets one item and two indicators; the second indicator points past the last item. */
  lemma MissingGameUnpairsDots()
    ensures var entries := [GameEntry(7), AdEntry("promo")];
      |RenderedEntries(entries, map[])| == 1 && IndicatorCountAsWritten(entries, map[]) == 2
  {
    var entries := [GameEntry(7), AdEntry("promo")];
    assert entries[1..] == [AdEntry("promo")];
    assert entries[1..][1..] == [];
  }

  /**
   * Corrected: one indicator for every rendered item. The definition itself
   * is the fix; the pairing it gives is stated by `BuildFeaturedCarousel`.
   */
  function IndicatorCount(entries: seq<FeaturedEntry>, gamesMap: map<int, Game>): (r: nat)
    ensures r <= IndicatorCountAsWritten(entries, gamesMap)
    ensures forall e :: e in entries && (e.GameEntry? ==> e.id in gamesMap) ==> r > 0
  {
    |RenderedEntries(entries, gamesMap)|
  }

  /**
   * Corrected construction of the featured carousel: indicators are made per
   * rendered item, and a section with nothing to show gets no carousel.
   */
  method BuildFeaturedCarousel(entries: seq<FeaturedEntry>, gamesMap: map<int, Game>) returns (c: FeaturedCarousel?)
    ensures c == null <==> |RenderedEntries(entries, gamesMap)| == 0
    ensures c != null ==>
      fresh(c) && c.Valid() && c.Shows(0) &&
      |c.items| == |RenderedEntries(entries, gamesMap)| == IndicatorCount(entries, gamesMap)
  {
    var n := IndicatorCount(entries, gamesMap);
    if n == 0 {
      return null;
    }
    c := new FeaturedCarousel(n);
  }

  // ---------------------------------------------------------------------
  // Media gallery of the game details view (script.js:836-858, 898-922)
  // ---------------------------------------------------------------------

  datatype MediaType = Image | Video
  datatype MediaItem = MediaItem(kind: MediaType, src: string)

  /** `list || []`. */
  function OrEmpty(list: Option<seq<string>>): seq<string>
  {
    if list.Some? then list.value else []
  }

  /** The gallery's items: the images, then the videos, or the cover image alone when there are none. */
  function MediaItems(images: Option<seq<string>>, videos: Option<seq<string>>, cover: string): (r: seq<MediaItem>)
    ensures |r| > 0
    ensures var imgs, vids := OrEmpty(images), OrEmpty(videos);
      |imgs| + |vids| > 0 ==>
        && |r| == |imgs| + |vids|
        && (forall i :: 0 <= i < |imgs| ==> r[i] == MediaItem(Image, imgs[i]))
        && (forall j :: 0 <= j < |vids| ==> r[|imgs| + j] == MediaItem(Video, vids[j]))
    ensures |OrEmpty(images)| + |OrEmpty(videos)| == 0 ==> r == [MediaItem(Image, cover)]
  {
    var imgs, vids := OrEmpty(images), OrEmpty(videos);
    var items := seq(|imgs|, i requires 0 <= i < |imgs| => MediaItem(Image, imgs[i]))
               + seq(|vids|, j requires 0 <= j < |vids| => MediaItem(Video, vids[j]));
    assert |items| == |imgs| + |vids|;
    if |items| == 0 then [MediaItem(Image, cover)] else items
  }

  function Sources(items: seq<MediaItem>): (r: seq<string>)
    ensures |r| == |items| && forall i :: 0 <= i < |items| ==> r[i] == items[i].src
  {
    seq(|items|, i requires 0 <= i < |items| => items[i].src)
  }

  /** Unless the cover stands in, the gallery shows exactly the game's images followed by its videos. */
  lemma MediaItemsSources(images: Option<seq<string>>, videos: Option<seq<string>>, cover: string)
    ensures |OrEmpty(images)| + |OrEmpty(videos)| > 0 ==>
      Sources(MediaItems(images, videos, cover)) == OrEmpty(images) + OrEmpty(videos)
  {
  }

  /** The index the gallery's 'prev' button moves to: one back, unless already at the first item. */
  function GalleryPrev(i: nat): (r: nat)
    ensures r <= i && (i > 0 ==> r == i - 1)
  {
    if i > 0 then i - 1 else i
  }

  /** The index the 'next' button moves to: one on, unless already at the last item. */
  function GalleryNext(i: nat, count: nat): (r: nat)
    ensures InGallery(i, count) ==> InGallery(r, count)
    ensures r >= i && (i + 1 < count ==> r == i + 1)
  {
    if i < count - 1 then i + 1 else i
  }

  /** `i` lies in [0, count - 1], or is 0 for an empty gallery. */
  predicate InGallery(i: nat, count: nat)
  {
    i == 0 || i < count
  }

  /** The gallery's ends do not move: 'prev' on the first item and 'next' on the last are no-ops. */
  lemma GalleryEnds(count: nat)
    requires count > 0
    ensures GalleryPrev(0) == 0 && GalleryNext(count - 1, count) == count - 1
  {
  }

  /** 'prev' undoes 'next' wherever 'next' moves. */
  lemma GalleryPrevUndoesNext(i: nat, count: nat)
    requires i + 1 < count
    ensures GalleryPrev(GalleryNext(i, count)) == i
  {
  }

  /** The media gallery's navigation state: the current item and the container's translation. */
  class MediaGallery {
    const count: nat
    var currentIndex: nat
    /** The container is translated by `-offset` percent. */
    var offset: int

    ghost predicate Valid()
      reads this
    {
      InGallery(currentIndex, count) && offset == currentIndex * 100
    }

    /** `setupCarouselNavigation`: starts at the first item. */
    constructor (mediaItems: seq<MediaItem>)
      ensures Valid() && count == |mediaItems| && currentIndex == 0 && offset == 0
    {
      count := |mediaItems|;
      new;
      UpdateCarousel(0);
    }

    /** `updateCarousel(index)`: moves to `index` and translates the container to it. */
    method UpdateCarousel(index: nat)
      requires InGallery(index, count)
      modifies this
      ensures Valid() && currentIndex == index
    {
      currentIndex := index;
      offset := currentIndex * 100;
    }

    /** The 'prev' arrow. */
    method Prev()
      requires Valid()
      modifies this
      ensures Valid() && currentIndex == GalleryPrev(old(currentIndex))
    {
      if currentIndex > 0 {
        UpdateCarousel(currentIndex - 1);
      }
    }

    /** The 'next' arrow. */
    method Next()
      requires Valid()
      modifies this
      ensures Valid() && currentIndex == GalleryNext(old(currentIndex), count)
    {
      if currentIndex < count - 1 {
        UpdateCarousel(currentIndex + 1);
      }
    }
  }

  // ---------------------------------------------------------------------
  // Grid sections (script.js:17, 254-256)
  // ---------------------------------------------------------------------

  /** `new Map(games.map(game => [game.id, game]))`: a later game with the same id replaces an earlier one. */
  function GamesMap(games: seq<Game>): (m: map<int, Game>)
    ensures m.Keys == set g | g in games :: g.id
    ensures forall id :: id in m ==> m[id] in games && m[id].id == id
    decreases |games|
  {
    if games == [] then map[]
    else
      var init := games[..|games| - 1];
      assert games == init + [Last(games)];
      GamesMap(init)[Last(games).id := Last(games)]
  }

  /** The map holds, for an id, the last game in the list that has it. */
  lemma {:induction false} GamesMapLastWins(games: seq<Game>, i: nat)
    requires i < |games|
    requires forall j :: i < j < |games| ==> games[j].id != games[i].id
    ensures games[i].id in GamesMap(games) && GamesMap(games)[games[i].id] == games[i]
    decreases |games|
  {
    if i < |games| - 1 {
      var init := games[..|games| - 1];
      GamesMapLastWins(init, i);
    }
  }

  /** A grid section's games: `gameIds` looked up in the catalogue, unknown ids dropped, order kept. */
  function SectionGames(gameIds: seq<int>, gamesMap: map<int, Game>): (r: seq<Game>)
    ensures |r| <= |gameIds|
    ensures forall g :: g in r ==> exists id :: id in gameIds && id in gamesMap && gamesMap[id] == g
  {
    if gameIds == [] then []
    else
      var head := if gameIds[0] in gamesMap then [gamesMap[gameIds[0]]] else [];
      var tail := SectionGames(gameIds[1..], gamesMap);
      var r := head + tail;
      assert forall g :: g in r ==> exists id :: id in gameIds && id in gamesMap && gamesMap[id] == g by {
        forall g | g in r
          ensures exists id :: id in gameIds && id in gamesMap && gamesMap[id] == g
        {
          if g in head {
            var k := gameIds[0];
            assert k in gameIds && k in gamesMap && gamesMap[k] == g;
          } else {
            assert g in tail;
            var k :| k in gameIds[1..] && k in gamesMap && gamesMap[k] == g;
            assert k in gameIds && k in gamesMap && gamesMap[k] == g;
          }
        }
      }
      r
  }

  /** Section lists compose: the games of two id lists are those of the first followed by those of the second. */
  lemma {:induction false} SectionGamesAppend(a: seq<int>, b: seq<int>, gamesMap: map<int, Game>)
    ensures SectionGames(a + b, gamesMap) == SectionGames(a, gamesMap) + SectionGames(b, gamesMap)
  {
    if a == [] {
      assert a + b == b;
    } else {
      assert (a + b)[1..] == a[1..] + b;
      SectionGamesAppend(a[1..], b, gamesMap);
    }
  }

  /** When every id is known, the section has exactly one game per id, in id order. */
  lemma {:induction false} SectionGamesAllKnown(gameIds: seq<int>, gamesMap: map<int, Game>)
    requires forall i :: 0 <= i < |gameIds| ==> gameIds[i] in gamesMap
    ensures |SectionGames(gameIds, gamesMap)| == |gameIds|
    ensures forall i :: 0 <= i < |gameIds| ==> SectionGames(gameIds, gamesMap)[i] == gamesMap[gameIds[i]]
  {
    if gameIds != [] {
      SectionGamesAllKnown(gameIds[1..], gamesMap);
    }
  }

  // ---------------------------------------------------------------------
  // Catalogue grid: genre and tag filters, top 10 (script.js:446-495)
  // ---------------------------------------------------------------------

  /** A genre checkbox and the text of the label next to it. */
  datatype GenreCheckbox = GenreCheckbox(checked: bool, labelText: string)

  /** The lower-cased labels of the checked boxes, in box order. */
  function SelectedGenres(boxes: seq<GenreCheckbox>): (r: seq<string>)
    ensures forall x :: x in r <==> exists b :: b in boxes && b.checked && Lower(b.labelText) == x
  {
    if boxes == [] then []
    else
      assert forall b :: b in boxes <==> b == boxes[0] || b in boxes[1..];
      (if boxes[0].checked then [Lower(boxes[0].labelText)] else []) + SelectedGenres(boxes[1..])
  }

  /** `game.tags.some(tag => selectedGenres.includes(tag.toLowerCase()))`. */
  predicate HasSelectedTag(game: Game, selected: seq<string>)
  {
    exists t :: t in game.tags && Lower(t) in selected
  }

  /** The genre filter: all games when nothing is selected, otherwise those with a selected tag, in order. */
  function GenreFiltered(games: seq<Game>, selected: seq<string>): (r: seq<Game>)
    ensures |selected| == 0 ==> r == games
    ensures |selected| > 0 ==> forall g :: g in r <==> g in games && HasSelectedTag(g, selected)
    ensures |selected| > 0 ==> forall g :: multiset(r)[g] == if HasSelectedTag(g, selected) then multiset(games)[g] else 0
    ensures multiset(r) <= multiset(games)
  {
    if |selected| > 0 then
      var p := g => HasSelectedTag(g, selected);
      FilterCount(games, p);
      Filter(games, p)
    else games
  }

  /** `game.tags.some(gameTag => gameTag.toLowerCase() === tagText)`. */
  predicate HasTag(game: Game, tagText: string)
  {
    exists t :: t in game.tags && Lower(t) == tagText
  }

  /** The tag filter: the games carrying the clicked tag, in order. */
  function TagFiltered(games: seq<Game>, tagText: string): (r: seq<Game>)
    ensures forall g :: g in r <==> g in games && HasTag(g, tagText)
    ensures forall g :: multiset(r)[g] == if HasTag(g, tagText) then multiset(games)[g] else 0
  {
    var p := g => HasTag(g, tagText);
    FilterCount(games, p);
    Filter(games, p)
  }

  /** Checking genres that every game carries leaves the grid as it is. */
  lemma GenreFilteredAllMatch(games: seq<Game>, selected: seq<string>)
    requires forall g :: g in games ==> HasSelectedTag(g, selected)
    ensures GenreFiltered(games, selected) == games
  {
    if |selected| > 0 {
      FilterKeepsAll(games, g => HasSelectedTag(g, selected));
    }
  }

  /** Clicking a tag shows the same games as checking only the genre with that label. */
  lemma TagIsSingleGenre(games: seq<Game>, name: string)
    ensures TagFiltered(games, Lower(name)) == GenreFiltered(games, [Lower(name)])
  {
    var x := Lower(name);
    FilterAgree(games, g => HasTag(g, x), g => HasSelectedTag(g, [x]));
  }

  /** Plays never increase along the list. */
  ghost predicate PlaysNonIncreasing(s: seq<Game>)
  {
    forall i, j :: 0 <= i < j < |s| ==> s[i].plays >= s[j].plays
  }

  /** Inserts `g` before the first game with no more plays than it, so ahead of the games it ties with. */
  function InsertByPlays(g: Game, sorted: seq<Game>): (r: seq<Game>)
    ensures |r| == |sorted| + 1
  {
    if sorted == [] || sorted[0].plays <= g.plays then [g] + sorted
    else [sorted[0]] + InsertByPlays(g, sorted[1..])
  }

  /** Insertion adds exactly `g`: one more of it, and nothing else. */
  lemma {:induction false} InsertByPlaysCount(g: Game, sorted: seq<Game>)
    ensures multiset(InsertByPlays(g, sorted)) == multiset(sorted) + multiset{g}
    ensures forall x :: x in InsertByPlays(g, sorted) <==> x == g || x in sorted
  {
    if sorted != [] && sorted[0].plays > g.plays {
      assert sorted == [sorted[0]] + sorted[1..];
      InsertByPlaysCount(g, sorted[1..]);
    }
  }

  /** Inserting into a list ordered by plays keeps it ordered. */
  lemma {:induction false} InsertByPlaysOrdered(g: Game, sorted: seq<Game>)
    requires PlaysNonIncreasing(sorted)
    ensures PlaysNonIncreasing(InsertByPlays(g, sorted))
  {
    if sorted != [] && sorted[0].plays > g.plays {
      var head, tail := sorted[0], sorted[1..];
      var rest := InsertByPlays(g, tail);
      assert PlaysNonIncreasing(tail) by {
        assert forall j :: 0 <= j < |tail| ==> tail[j] == sorted[j + 1];
      }
      InsertByPlaysOrdered(g, tail);
      InsertByPlaysCount(g, tail);
      assert forall x :: x in tail ==> x.plays <= head.plays;
      ConsOrdered(head, rest);
      assert InsertByPlays(g, sorted) == [head] + rest;
    }
  }

  /** A game with at least the plays of every game in an ordered list can go in front of it. */
  lemma ConsOrdered(head: Game, rest: seq<Game>)
    requires PlaysNonIncreasing(rest)
    requires forall x :: x in rest ==> x.plays <= head.plays
    ensures PlaysNonIncreasing([head] + rest)
  {
    var r := [head] + rest;
    forall i, j | 0 <= i < j < |r|
      ensures r[i].plays >= r[j].plays
    {
      assert r[j] == rest[j - 1] && rest[j - 1] in rest;
      if i > 0 {
        assert r[i] == rest[i - 1];
      }
    }
  }

  /** `[...games].sort((a, b) => b.plays - a.plays)`: a permutation ordered by plays, most first. */
  function SortByPlays(games: seq<Game>): (r: seq<Game>)
    ensures multiset(r) == multiset(games)
    ensures PlaysNonIncreasing(r)
  {
    if games == [] then []
    else
      assert games == [games[0]] + games[1..];
      InsertByPlaysOrdered(games[0], SortByPlays(games[1..]));
      InsertByPlaysCount(games[0], SortByPlays(games[1..]));
      InsertByPlays(games[0], SortByPlays(games[1..]))
  }

  /** Sorting keeps the number of games. */
  lemma SortByPlaysLength(games: seq<Game>)
    ensures |SortByPlays(games)| == |games|
  {
    var sorted := SortByPlays(games);
    assert |sorted| == |multiset(sorted)| == |multiset(games)| == |games|;
  }

  /** The games with exactly `v` plays. */
  function WithPlays(v: int): Game -> bool
  {
    (x: Game) => x.plays == v
  }

  /** Among the games with any one number of plays, insertion puts `g` first and keeps the others' order. */
  lemma {:induction false} InsertByPlaysStable(g: Game, sorted: seq<Game>, v: int)
    ensures Filter(InsertByPlays(g, sorted), WithPlays(v)) == (if g.plays == v then [g] else []) + Filter(sorted, WithPlays(v))
  {
    var p := WithPlays(v);
    var gs: seq<Game> := if p(g) then [g] else [];
    assert p(g) == (g.plays == v);
    if sorted == [] || sorted[0].plays <= g.plays {
      assert InsertByPlays(g, sorted) == [g] + sorted;
      FilterCons(g, sorted, p);
    } else {
      var head, tail := sorted[0], sorted[1..];
      var rest := InsertByPlays(g, tail);
      var hs: seq<Game> := if p(head) then [head] else [];
      assert p(head) == (head.plays == v);
      assert sorted == [head] + tail;
      calc {
        Filter(InsertByPlays(g, sorted), p);
        Filter([head] + rest, p);
        { FilterCons(head, rest, p); }
        hs + Filter(rest, p);
        { InsertByPlaysStable(g, tail, v); }
        hs + (gs + Filter(tail, p));
        { SwapEmpty(hs, gs, Filter(tail, p)); }
        gs + (hs + Filter(tail, p));
        { FilterCons(head, tail, p); }
        gs + Filter(sorted, p);
      }
    }
  }

  /** Two parts of which one is empty can trade places. */
  lemma SwapEmpty<T>(a: seq<T>, b: seq<T>, c: seq<T>)
    requires a == [] || b == []
    ensures a + (b + c) == b + (a + c)
  {
    if a == [] {
      assert a + (b + c) == b + c == b + (a + c);
    } else {
      assert a + (b + c) == a + c == b + (a + c);
    }
  }

  /** The sort is stable: the games with any one number of plays keep their catalogue order. */
  lemma {:induction false} SortByPlaysStable(games: seq<Game>, v: int)
    ensures Filter(SortByPlays(games), WithPlays(v)) == Filter(games, WithPlays(v))
  {
    if games != [] {
      SortByPlaysStable(games[1..], v);
      InsertByPlaysStable(games[0], SortByPlays(games[1..]), v);
    }
  }

  /** Cutting a stably sorted list keeps, for every number of plays, a leading part of the catalogue's games with it. */
  lemma TopPrefixStable(games: seq<Game>, sorted: seq<Game>, k: nat)
    requires sorted == SortByPlays(games) && k <= |sorted|
    ensures forall v :: Filter(sorted[..k], WithPlays(v)) <= Filter(games, WithPlays(v))
  {
    forall v
      ensures Filter(sorted[..k], WithPlays(v)) <= Filter(games, WithPlays(v))
    {
      assert sorted == sorted[..k] + sorted[k..];
      FilterAppend(sorted[..k], sorted[k..], WithPlays(v));
      SortByPlaysStable(games, v);
    }
  }

  /** The first `k` games of a list ordered by plays: ordered, drawn from the list, and ahead of every game after them. */
  lemma PrefixDominates(sorted: seq<Game>, k: nat)
    requires PlaysNonIncreasing(sorted) && k <= |sorted|
    ensures multiset(sorted[..k]) <= multiset(sorted)
    ensures PlaysNonIncreasing(sorted[..k])
    ensures forall i, g :: 0 <= i < k && g in multiset(sorted) - multiset(sorted[..k]) ==> g.plays <= sorted[i].plays
  {
    assert sorted == sorted[..k] + sorted[k..];
    forall i, g | 0 <= i < k && g in multiset(sorted) - multiset(sorted[..k])
      ensures g.plays <= sorted[i].plays
    {
      assert g in multiset(sorted[k..]);
      var j :| 0 <= j < |sorted[k..]| && sorted[k..][j] == g;
      assert sorted[k + j] == g;
    }
  }

  /** The monthly top 10: at most ten games of the list, most played first, none left out with more plays. */
  function TopGames(games: seq<Game>): (r: seq<Game>)
    ensures |r| == if |games| < 10 then |games| else 10
    ensures multiset(r) <= multiset(games)
    ensures PlaysNonIncreasing(r)
    ensures forall i, g :: 0 <= i < |r| && g in multiset(games) - multiset(r) ==> g.plays <= r[i].plays
    ensures forall v :: Filter(r, WithPlays(v)) <= Filter(games, WithPlays(v))
  {
    var sorted := SortByPlays(games);
    SortByPlaysLength(games);
    var k := if |games| < 10 then |games| else 10;
    PrefixDominates(sorted, k);
    TopPrefixStable(games, sorted, k);
    sorted[..k]
  }

  /** The catalogue page's grid, its tag bar and its top-10 list. */
  class Catalogue {
    /** The page's game list. */
    const games: seq<Game>
    const tagLabels: seq<string>
    /** The games shown in the grid, in order. */
    var grid: seq<Game>
    /** Which tags carry the 'active' class. */
    var tagActive: seq<bool>
    /** The games shown in the top-10 list, in rank order. */
    var topList: seq<Game>

    ghost predicate Valid()
      reads this
    {
      |tagActive| == |tagLabels|
    }

    constructor (games: seq<Game>, tagLabels: seq<string>, tagActive: seq<bool>)
      requires |tagActive| == |tagLabels|
      ensures Valid() && this.games == games && this.tagLabels == tagLabels
      ensures this.tagActive == tagActive && grid == [] && topList == []
    {
      this.games := games;
      this.tagLabels := tagLabels;
      this.tagActive := tagActive;
      grid := [];
      topList := [];
    }

    /** `populateGames(gamesArray)`. */
    method PopulateGames(gamesArray: seq<Game>)
      modifies this
      ensures grid == gamesArray && tagActive == old(tagActive) && topList == old(topList)
    {
      grid := gamesArray;
    }

    /** `populateTopGames()`. */
    method PopulateTopGames()
      modifies this
      ensures topList == TopGames(games) && grid == old(grid) && tagActive == old(tagActive)
    {
      topList := TopGames(games);
    }

    /** A change of any genre checkbox. */
    method OnGenreChange(boxes: seq<GenreCheckbox>)
      modifies this
      ensures grid == GenreFiltered(games, SelectedGenres(boxes))
      ensures tagActive == old(tagActive) && topList == old(topList)
    {
      var selected := SelectedGenres(boxes);
      var filtered := if |selected| > 0 then Filter(games, g => HasSelectedTag(g, selected)) else games;
      PopulateGames(filtered);
    }

    /** A click on tag `index`: the grid shows that tag's games and the tag alone is active. */
    method OnTagClick(index: nat)
      requires Valid() && index < |tagLabels|
      modifies this
      ensures Valid() && grid == TagFiltered(games, Lower(tagLabels[index]))
      ensures forall j :: 0 <= j < |tagActive| ==> (tagActive[j] <==> j == index)
      ensures topList == old(topList)
    {
      var tagText := Lower(tagLabels[index]);
      PopulateGames(Filter(games, g => HasTag(g, tagText)));
      var i := 0;
      while i < |tagActive|
        invariant 0 <= i <= |tagActive| == |tagLabels|
        invariant forall j :: 0 <= j < i ==> !tagActive[j]
        invariant grid == TagFiltered(games, tagText) && topList == old(topList)
      {
        tagActive := tagActive[i := false];
        i := i + 1;
      }
      tagActive := tagActive[index := true];
    }
  }
}
