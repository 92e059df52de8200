/**
 * The game details page (game-details.js): finding the game named in the
 * URL, the thumbnail strip with its single active thumbnail, and the main
 * media area that a thumbnail click refills.
 */
module GameDetails {
  import opened Wrappers
  import opened Games

  const ActiveClass := "active"
  const ThumbnailClass := "media-thumbnail"
  const VideoClass := "video"
  const ImageType := "image"
  const VideoType := "video"

  /**
   * `games.find(g => g.id === parseInt(gameId))`, as an index. `id` is the
   * parsed parameter; `None` stands for a missing or non-numeric one, which
   * equals no id.
   */
  function FindGame(games: seq<Game>, id: Option<int>): (r: Option<nat>)
    ensures r.Some? ==> r.value < |games| && id == Some(games[r.value].id)
    ensures r.Some? ==> forall j :: 0 <= j < r.value ==> id != Some(games[j].id)
    ensures r.None? ==> forall j :: 0 <= j < |games| ==> id != Some(games[j].id)
  {
    if games == [] then None
    else if id == Some(games[0].id) then Some(0)
    else match FindGame(games[1..], id)
      case None => None
      case Some(k) => Some(k + 1)
  }

  /** A child of the main media container. */
  datatype MainMedia = Img(id: string, src: string, alt: string) | Video(id: string, src: string, controls: bool, autoplay: bool)

  /** What `updateMainMedia(element, type)` leaves in the container. */
  function MainMediaFor(element: string, mediaType: string, title: string): (r: seq<MainMedia>)
    ensures |r| <= 1
    ensures |r| == 1 <==> mediaType == ImageType || mediaType == VideoType
    ensures |r| == 1 ==> r[0].src == element
    ensures |r| == 1 ==> (r[0].Img? <==> mediaType == ImageType)
    ensures |r| == 1 && r[0].Img? ==> r[0] == Img("mainImage", element, title)
    ensures |r| == 1 && r[0].Video? ==> r[0] == Video("mainVideo", element, true, true)
  {
    if mediaType == ImageType then [Img("mainImage", element, title)]
    else if mediaType == VideoType then [Video("mainVideo", element, true, true)]
    else []
  }

  /** A thumbnail: the media it shows when clicked, that media's type, and its class list. */
  datatype Thumbnail = Thumbnail(element: string, mediaType: string, classes: set<string>)

  /** A new thumbnail for an image or a video. */
  function NewThumbnail(element: string, mediaType: string): (t: Thumbnail)
    ensures t.element == element && t.mediaType == mediaType && ActiveClass !in t.classes
  {
    Thumbnail(element, mediaType, if mediaType == VideoType then {ThumbnailClass, VideoClass} else {ThumbnailClass})
  }

  /** The thumbnail strip of a game as built: one per image, then one per video, each in source order. */
  function ThumbnailsFor(images: seq<string>, videos: seq<string>): (r: seq<Thumbnail>)
    ensures |r| == |images| + |videos|
    ensures forall i :: 0 <= i < |images| ==> r[i] == NewThumbnail(images[i], ImageType)
    ensures forall j :: 0 <= j < |videos| ==> r[|images| + j] == NewThumbnail(videos[j], VideoType)
  {
    seq(|images|, i requires 0 <= i < |images| => NewThumbnail(images[i], ImageType))
    + seq(|videos|, j requires 0 <= j < |videos| => NewThumbnail(videos[j], VideoType))
  }

  /** The thumbnails with the 'active' class taken off. */
  function Plain(thumbs: seq<Thumbnail>): (r: seq<Thumbnail>)
    ensures |r| == |thumbs|
    ensures forall i :: 0 <= i < |thumbs| ==> r[i] == thumbs[i].(classes := thumbs[i].classes - {ActiveClass})
  {
    seq(|thumbs|, i requires 0 <= i < |thumbs| => thumbs[i].(classes := thumbs[i].classes - {ActiveClass}))
  }

  /** The details page of one game. */
  class DetailsPage {
    var title: string
    var mainMedia: seq<MainMedia>
    var thumbs: seq<Thumbnail>
    /** `activeThumbnail`: the index of the thumbnail last clicked, if any. */
    var activeThumbnail: Option<nat>

    /** The active thumbnail is the only one carrying 'active'. */
    ghost predicate Valid()
      reads this
    {
      && (activeThumbnail.Some? ==> activeThumbnail.value < |thumbs|)
      && forall i :: 0 <= i < |thumbs| ==> (ActiveClass in thumbs[i].classes <==> activeThumbnail == Some(i))
    }

    /** The page before loading: an empty title and the main image element with no source. */
    constructor ()
      ensures Valid() && title == "" && mainMedia == [Img("mainImage", "", "")]
      ensures thumbs == [] && activeThumbnail == None
    {
      title := "";
      mainMedia := [Img("mainImage", "", "")];
      thumbs := [];
      activeThumbnail := None;
    }

    /** `updateMainMedia(element, type)`: clears the container and refills it. */
    method UpdateMainMedia(element: string, mediaType: string)
      modifies this
      ensures mainMedia == MainMediaFor(element, mediaType, title)
      ensures title == old(title) && thumbs == old(thumbs) && activeThumbnail == old(activeThumbnail)
    {
      mainMedia := [];
      if mediaType == ImageType {
        mainMedia := mainMedia + [Img("mainImage", element, title)];
      } else if mediaType == VideoType {
        mainMedia := mainMedia + [Video("mainVideo", element, true, true)];
      }
    }

    /** `handleThumbnailClick(thumbnail, element, type)`. */
    method HandleThumbnailClick(t: nat, element: string, mediaType: string)
      requires Valid() && t < |thumbs|
      modifies this
      ensures Valid() && activeThumbnail == Some(t)
      ensures Plain(thumbs) == Plain(old(thumbs))
      ensures ActiveClass in thumbs[t].classes
      ensures old(activeThumbnail).Some? && old(activeThumbnail) != Some(t) ==> ActiveClass !in thumbs[old(activeThumbnail).value].classes
      ensures mainMedia == MainMediaFor(element, mediaType, title) && title == old(title)
    {
      if activeThumbnail.Some? {
        var a := activeThumbnail.value;
        thumbs := thumbs[a := thumbs[a].(classes := thumbs[a].classes - {ActiveClass})];
      }
      thumbs := thumbs[t := thumbs[t].(classes := thumbs[t].classes + {ActiveClass})];
      assert forall i :: 0 <= i < |thumbs| ==> Plain(thumbs)[i] == Plain(old(thumbs))[i];
      activeThumbnail := Some(t);
      UpdateMainMedia(element, mediaType);
    }

    /** The click listener of thumbnail `t`. */
    method ClickThumbnail(t: nat)
      requires Valid() && t < |thumbs|
      modifies this
      ensures Valid() && activeThumbnail == Some(t) && Plain(thumbs) == Plain(old(thumbs))
      ensures mainMedia == MainMediaFor(old(thumbs[t]).element, old(thumbs[t]).mediaType, title)
    {
      HandleThumbnailClick(t, thumbs[t].element, thumbs[t].mediaType);
    }

    /** Appends a thumbnail for `element` to the strip. */
    method AddThumbnail(element: string, mediaType: string)
      requires Valid()
      modifies this
      ensures Valid() && thumbs == old(thumbs) + [NewThumbnail(element, mediaType)]
      ensures title == old(title) && mainMedia == old(mainMedia) && activeThumbnail == old(activeThumbnail)
    {
      thumbs := thumbs + [NewThumbnail(element, mediaType)];
    }

    /**
     * `loadGameDetails()` once the game list is loaded. A game whose `images`
     * or `videos` field is missing makes its `forEach` throw; the error is
     * caught and loading stops there.
     */
    method LoadGameDetails(games: seq<Game>, id: Option<int>)
      requires Valid()
      modifies this
      ensures Valid()
      ensures FindGame(games, id).None? ==>
        title == old(title) && mainMedia == old(mainMedia) && thumbs == old(thumbs) && activeThumbnail == old(activeThumbnail)
      ensures FindGame(games, id).Some? ==>
        var game := games[FindGame(games, id).value];
        var imgs := if game.images.Some? then game.images.value else [];
        var vids := if game.images.Some? && game.videos.Some? then game.videos.value else [];
        && title == game.title
        && Plain(thumbs) == ThumbnailsFor(imgs, vids)
        && activeThumbnail == (if |imgs| > 0 then Some(0) else None)
        && mainMedia == (if |imgs| > 0 then [Img("mainImage", imgs[0], game.title)] else [Img("mainImage", game.background, game.title)])
    {
      var found := FindGame(games, id);
      if found.None? {
        return;
      }
      var game := games[found.value];
      title := game.title;
      mainMedia := [Img("mainImage", game.background, game.title)];
      thumbs := [];
      activeThumbnail := None;
      if game.images.None? {
        assert Plain(thumbs) == ThumbnailsFor([], []);
        return;
      }
      var images := game.images.value;
      AddImages(images, game.background);
      if game.videos.None? {
        return;
      }
      AddVideos(images, game.videos.value);
    }

    /** The `forEach` over the images: a thumbnail each, the first one clicked. */
    method AddImages(images: seq<string>, background: string)
      requires Valid() && thumbs == [] && activeThumbnail == None
      requires mainMedia == [Img("mainImage", background, title)]
      modifies this
      ensures Valid() && title == old(title)
      ensures Plain(thumbs) == ThumbnailsFor(images, [])
      ensures activeThumbnail == (if |images| > 0 then Some(0) else None)
      ensures mainMedia == (if |images| > 0 then [Img("mainImage", images[0], title)] else [Img("mainImage", background, title)])
    {
      for index := 0 to |images|
        invariant Valid() && title == old(title) && |thumbs| == index
        invariant Plain(thumbs) == ThumbnailsFor(images[..index], [])
        invariant activeThumbnail == (if index > 0 then Some(0) else None)
        invariant mainMedia == (if index > 0 then [Img("mainImage", images[0], title)] else [Img("mainImage", background, title)])
      {
        ImageStep(thumbs, images, index);
        AddThumbnail(images[index], ImageType);
        if index == 0 {
          HandleThumbnailClick(index, images[index], ImageType);
        }
      }
      assert images[..|images|] == images;
    }

    /** The `forEach` over the videos: a thumbnail each, none clicked. */
    method AddVideos(images: seq<string>, videos: seq<string>)
      requires Valid() && Plain(thumbs) == ThumbnailsFor(images, [])
      modifies this
      ensures Valid() && title == old(title) && mainMedia == old(mainMedia) && activeThumbnail == old(activeThumbnail)
      ensures Plain(thumbs) == ThumbnailsFor(images, videos)
    {
      for k := 0 to |videos|
        invariant Valid() && title == old(title) && mainMedia == old(mainMedia) && activeThumbnail == old(activeThumbnail)
        invariant Plain(thumbs) == ThumbnailsFor(images, videos[..k])
      {
        VideoStep(thumbs, images, videos, k);
        AddThumbnail(videos[k], VideoType);
      }
      assert videos[..|videos|] == videos;
    }
  }

  lemma PlainAppend(thumbs: seq<Thumbnail>, t: Thumbnail)
    requires ActiveClass !in t.classes
    ensures Plain(thumbs + [t]) == Plain(thumbs) + [t]
  {
    assert t.(classes := t.classes - {ActiveClass}) == t;
  }

  lemma ThumbnailsForSnoc(images: seq<string>, videos: seq<string>, v: string)
    ensures ThumbnailsFor(images, videos + [v]) == ThumbnailsFor(images, videos) + [NewThumbnail(v, VideoType)]
  {
  }

  lemma PlainSnoc(thumbs: seq<Thumbnail>, images: seq<string>, x: string)
    requires Plain(thumbs) == ThumbnailsFor(images, [])
    ensures Plain(thumbs + [NewThumbnail(x, ImageType)]) == ThumbnailsFor(images + [x], [])
  {
    PlainAppend(thumbs, NewThumbnail(x, ImageType));
  }

  /** One step of the image loop: the strip grows by the thumbnail of `images[k]`. */
  lemma ImageStep(thumbs: seq<Thumbnail>, images: seq<string>, k: nat)
    requires k < |images| && Plain(thumbs) == ThumbnailsFor(images[..k], [])
    ensures Plain(thumbs + [NewThumbnail(images[k], ImageType)]) == ThumbnailsFor(images[..k + 1], [])
  {
    PlainSnoc(thumbs, images[..k], images[k]);
    assert images[..k + 1] == images[..k] + [images[k]];
  }

  /** One step of the video loop: the strip grows by the thumbnail of `videos[k]`. */
  lemma VideoStep(thumbs: seq<Thumbnail>, images: seq<string>, videos: seq<string>, k: nat)
    requires k < |videos| && Plain(thumbs) == ThumbnailsFor(images, videos[..k])
    ensures Plain(thumbs + [NewThumbnail(videos[k], VideoType)]) == ThumbnailsFor(images, videos[..k + 1])
  {
    ThumbnailsForSnoc(images, videos[..k], videos[k]);
    assert videos[..k + 1] == videos[..k] + [videos[k]];
    PlainAppend(thumbs, NewThumbnail(videos[k], VideoType));
  }

  /** Right after loading, only the first image thumbnail is active; no video thumbnail is. */
  lemma InitiallyFirstImage(images: seq<string>, videos: seq<string>, active: Option<nat>)
    requires active == (if |images| > 0 then Some(0) else None)
    ensures active.Some? ==> active.value < |images|
    ensures active.Some? ==> ThumbnailsFor(images, videos)[active.value].mediaType == ImageType
  {
  }
}
