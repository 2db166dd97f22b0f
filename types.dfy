/** Values shared by every component: the catalog movie, the session profile,
    the parsed contents of one browser-storage entry and the payloads of the
    two watch-later notification channels. */
module Types {

  datatype Option<+T> = None | Some(value: T)

  /** A catalog movie; `imdbID` is the key that the personal lists compare on.
      Optional fields hold None where the catalog sent nothing. */
  datatype Movie = Movie(
    Title: string,
    Year: string,
    imdbID: string,
    Poster: Option<string>,
    Director: Option<string>,
    Plot: Option<string>,
    Rated: Option<string>,
    Genre: Option<string>)

  /** The session profile kept under `user_data`. */
  datatype UserData = UserData(name: string, email: string)

  /** A storage entry after JSON parsing: an array (of movies), a profile
      record, or any other value (a number, a boolean, another object). */
  datatype Value = List(movies: seq<Movie>) | Profile(user: UserData) | Other

  /** `detail` of the in-page `watchlater:update` event: the count, when
      the sender put a number there. */
  datatype UpdateEvent = UpdateEvent(count: Option<int>)

  /** `data` of a message on the `watch_later_channel` broadcast channel:
      its `type` field and its `count` field, each when present (the count
      only when it is a number). */
  datatype Message = Message(kind: Option<string>, count: Option<int>)
}
