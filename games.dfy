/** The game record that the catalogue (`games.json` and the home page's list) is made of. */
module Games {
  import opened Wrappers

  /**
   * One catalogue entry.  `genre` is a ", "-separated list of genres;
   * `images` and `videos` are absent in entries that have no media.
   */
  datatype Game = Game(
    id: int,
    title: string,
    description: string,
    genre: string,
    tags: seq<string>,
    plays: int,
    cover: string,
    background: string,
    images: Option<seq<string>>,
    videos: Option<seq<string>>)
}
