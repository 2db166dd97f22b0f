/** The favorites provider: an ordered list of movies, unique by `imdbID`
    when built only through `AddFavorite`, written back in full under
    `favoriteMovies` after every change. */
module Favorites {
  import opened Types
  import opened Storage
  import opened MovieLists

  /** What the stored entry yields at start-up; anything other than an
      array there is outside the model (see `Loadable`). */
  predicate Loadable(saved: Option<Value>) {
    saved.None? || saved.value.List?
  }

  /** The lazy initial state: the stored list, or the empty list when the
      key is absent. */
  function InitialFavorites(saved: Option<Value>): seq<Movie>
    requires Loadable(saved)
  {
    if saved.Some? then saved.value.movies else []
  }

  /** A provider mounted on storage that a write-back has left starts with
      exactly the list that was written: the favorites survive a reload. */
  lemma ReloadAfterWriteBack(items: map<string, Value>, favs: seq<Movie>)
    ensures Loadable(Get(items[FavoritesKey := List(favs)], FavoritesKey))
    ensures InitialFavorites(Get(items[FavoritesKey := List(favs)], FavoritesKey)) == favs
  {
  }

  /** The list `addFavorite(movie)` leaves: unchanged when the id is already
      there, otherwise `movie` appended. */
  function WithFavorite(favs: seq<Movie>, movie: Movie): (r: seq<Movie>)
    ensures HasId(r, movie.imdbID)
    ensures |favs| <= |r| <= |favs| + 1 && r[..|favs|] == favs
  {
    if HasId(favs, movie.imdbID) then favs
    else
      var added := favs + [movie];
      assert added[|favs|] == movie;
      added
  }

  /** After adding, the id is present; a new id lands at the end behind the
      untouched earlier entries, a present one changes nothing. */
  lemma WithFavoriteEffect(favs: seq<Movie>, movie: Movie)
    ensures HasId(WithFavorite(favs, movie), movie.imdbID)
    ensures HasId(favs, movie.imdbID) ==> WithFavorite(favs, movie) == favs
    ensures !HasId(favs, movie.imdbID) ==>
      && |WithFavorite(favs, movie)| == |favs| + 1
      && WithFavorite(favs, movie)[..|favs|] == favs
      && WithFavorite(favs, movie)[|favs|] == movie
  {
  }

  /** Adding twice is adding once. */
  lemma WithFavoriteIdempotent(favs: seq<Movie>, movie: Movie)
    ensures WithFavorite(WithFavorite(favs, movie), movie) == WithFavorite(favs, movie)
  {
  }

  /** Adding keeps the ids of the list pairwise distinct. */
  lemma WithFavoriteKeepsDistinct(favs: seq<Movie>, movie: Movie)
    requires DistinctIds(favs)
    ensures DistinctIds(WithFavorite(favs, movie))
  {
  }

  /** Adding a movie whose id is absent and then removing that id gives
      back the original list. */
  lemma {:induction false} AddThenRemove(favs: seq<Movie>, movie: Movie)
    requires !HasId(favs, movie.imdbID)
    ensures WithoutId(WithFavorite(favs, movie), movie.imdbID) == favs
  {
    WithoutIdAppend(favs, [movie], movie.imdbID);
    WithoutAbsentId(favs, movie.imdbID);
    assert WithoutId([movie], movie.imdbID) == [];
  }

  class FavoritesProvider {
    var favorites: seq<Movie>
    const store: LocalStorage

    /** Storage under `favoriteMovies` holds exactly the current list. */
    ghost predicate Valid()
      reads this, store
    {
      FavoritesKey in store.items && store.items[FavoritesKey] == List(favorites)
    }

    /** Mounting: the lazy `useState` initialiser followed by the first run
        of the write-back effect. */
    constructor (store: LocalStorage)
      requires Loadable(Get(store.items, FavoritesKey))
      modifies store
      ensures this.store == store
      ensures favorites == InitialFavorites(Get(old(store.items), FavoritesKey))
      ensures store.items == old(store.items)[FavoritesKey := List(favorites)]
      ensures Valid()
    {
      var saved := Get(store.items, FavoritesKey);
      favorites := if saved.Some? then saved.value.movies else [];
      this.store := store;
      new;
      WriteBack();
    }

    /** The effect that runs whenever `favorites` is replaced. */
    method WriteBack()
      modifies store
      ensures store.items == old(store.items)[FavoritesKey := List(favorites)]
      ensures Valid()
    {
      store.SetItem(FavoritesKey, List(favorites));
    }

    method AddFavorite(movie: Movie)
      requires Valid()
      modifies this, store
      ensures favorites == WithFavorite(old(favorites), movie)
      ensures store.items == old(store.items)[FavoritesKey := List(favorites)]
      ensures DistinctIds(old(favorites)) ==> DistinctIds(favorites)
      ensures Valid()
    {
      if DistinctIds(favorites) {
        WithFavoriteKeepsDistinct(favorites, movie);
      }
      if !HasId(favorites, movie.imdbID) {
        favorites := favorites + [movie];
        WriteBack();
      }
    }

    method RemoveFavorite(id: string)
      requires Valid()
      modifies this, store
      ensures favorites == WithoutId(old(favorites), id)
      ensures !HasId(favorites, id)
      ensures store.items == old(store.items)[FavoritesKey := List(favorites)]
      ensures DistinctIds(old(favorites)) ==> DistinctIds(favorites)
      ensures Valid()
    {
      if DistinctIds(favorites) {
        WithoutIdKeepsDistinct(favorites, id);
      }
      favorites := WithoutId(favorites, id);
      WriteBack();
    }
  }
}
