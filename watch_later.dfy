/** The watch-later page: loads `watch_later_v1` once on mount, shows it in
    title order, and on a confirmed removal persists the shorter list and
    announces its new length on two best-effort channels. */
module WatchLater {
  import opened Types
  import opened Storage
  import opened MovieLists
  import opened TitleOrder
  import opened Favorites

  /** The mount effect's result: the stored list (the empty list when the
      key is absent) in title order, or None when the stored value is not
      an array and the spread into a copy throws. */
  function LoadWatchLater(saved: Option<Value>): (r: Option<seq<Movie>>)
    ensures saved.None? ==> r == Some([])
    ensures saved.Some? && saved.value.List? ==>
      && r.Some?
      && SortedByTitle(r.value)
      && multiset(r.value) == multiset(saved.value.movies)
    ensures saved.Some? && !saved.value.List? ==> r.None?
  {
    match saved
    case None => Some([])
    case Some(List(ms)) =>
      SortByTitleCorrect(ms);
      Some(SortByTitle(ms))
    case Some(_) => None
  }

  /** The `detail` of the in-page event announcing a list of length `n`. */
  function CountEvent(n: nat): UpdateEvent {
    UpdateEvent(Some(n))
  }

  /** The broadcast message announcing a list of length `n`. */
  function CountMessage(n: nat): Message {
    Message(Some("update"), Some(n))
  }

  /** The favorites heart on a watch-later card: removes the movie from the
      favorites when its id is there, adds it otherwise. */
  function Toggled(favs: seq<Movie>, movie: Movie): (r: seq<Movie>)
    ensures HasId(r, movie.imdbID) <==> !HasId(favs, movie.imdbID)
  {
    if HasId(favs, movie.imdbID) then WithoutId(favs, movie.imdbID) else WithFavorite(favs, movie)
  }

  /** Toggling a movie that is not a favorite twice gives back the list. */
  lemma ToggleTwiceAbsent(favs: seq<Movie>, movie: Movie)
    requires !HasId(favs, movie.imdbID)
    ensures Toggled(Toggled(favs, movie), movie) == favs
  {
    WithFavoriteEffect(favs, movie);
    AddThenRemove(favs, movie);
  }

  /** Toggling a favorite twice moves it to the end of the list and keeps
      every other entry in order. */
  lemma ToggleTwicePresent(favs: seq<Movie>, movie: Movie)
    requires HasId(favs, movie.imdbID)
    ensures Toggled(Toggled(favs, movie), movie) == WithoutId(favs, movie.imdbID) + [movie]
  {
  }

  class WatchLaterPage {
    var movies: seq<Movie>
    const store: LocalStorage

    /** The displayed list is always in title order. */
    ghost predicate Valid()
      reads this
    {
      SortedByTitle(movies)
    }

    /** Mounting: the empty initial state, then the load-and-sort effect,
        which reads storage and never writes it. A stored value that is not
        an array makes the effect throw uncaught (see `LoadWatchLater`),
        which is outside the model. */
    constructor (store: LocalStorage)
      requires Loadable(Get(store.items, WatchLaterKey))
      ensures this.store == store
      ensures Some(movies) == LoadWatchLater(Get(store.items, WatchLaterKey))
      ensures store.items == old(store.items)
      ensures Valid()
    {
      this.store := store;
      movies := [];
      new;
      var saved := Get(store.items, WatchLaterKey);
      var loaded := LoadWatchLater(saved);
      movies := loaded.value;
    }

    /** `handleRemove`: `confirmed` is the answer to the confirmation
        dialog; `dispatchFails`, `channelAvailable` and `postFails` say how
        each notification channel behaves. The results are the payloads
        that were actually delivered. */
    method HandleRemove(movie: Movie, confirmed: bool, dispatchFails: bool, channelAvailable: bool, postFails: bool)
      returns (event: Option<UpdateEvent>, message: Option<Message>)
      requires Valid()
      modifies this, store
      ensures !confirmed ==>
        && movies == old(movies) && store.items == old(store.items)
        && event.None? && message.None?
      ensures confirmed ==>
        && movies == WithoutId(old(movies), movie.imdbID)
        && store.items == old(store.items)[WatchLaterKey := List(movies)]
        && event == (if dispatchFails then None else Some(CountEvent(|movies|)))
        && message == (if channelAvailable && !postFails then Some(CountMessage(|movies|)) else None)
      ensures Valid()
    {
      event, message := None, None;
      if confirmed {
        var filtered := WithoutId(movies, movie.imdbID);
        WithoutIdKeepsSorted(movies, movie.imdbID);
        store.SetItem(WatchLaterKey, List(filtered));
        if !dispatchFails {
          event := Some(CountEvent(|filtered|));
        }
        if channelAvailable && !postFails {
          message := Some(CountMessage(|filtered|));
        }
        movies := filtered;
      }
    }

    /** The favorites heart on a card (the list shown here is untouched). */
    method ToggleFavorite(favs: FavoritesProvider, movie: Movie)
      requires favs.Valid()
      modifies favs, favs.store
      ensures favs.favorites == Toggled(old(favs.favorites), movie)
      ensures favs.store.items == old(favs.store.items)[FavoritesKey := List(favs.favorites)]
      ensures favs.Valid()
    {
      if HasId(favs.favorites, movie.imdbID) {
        favs.RemoveFavorite(movie.imdbID);
      } else {
        favs.AddFavorite(movie);
      }
    }
  }
}
