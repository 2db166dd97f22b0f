# Buscador de filmes: personal lists and session state

This project models the state layer of a browser movie-search application.
That layer keeps its data in the browser's key-value storage:

- the **favorites** list (`favoriteMovies`), kept by a provider that adds a
  movie only when its `imdbID` is new, removes by id, and writes the whole
  list back after every change;
- the **watch-later page** (`watch_later_v1`), which loads the stored list
  in title order and, on a confirmed removal, stores the shorter list and
  announces its new length on an in-page event and a broadcast channel;
- the **user-profile menu**, which writes a default session record under
  `user_data` when none exists, logs in from two prompt answers, logs out
  on confirmation, and keeps a watch-later counter fresh from events,
  broadcast messages and storage;
- the **genre table**: 18 Portuguese genre names and their translation to
  the catalog's English genre terms.

Storage is the class `Storage.LocalStorage`, which holds a
`map<string, Value>` of already-parsed JSON values; `getItem` is the
function `Storage.Get` on that map. A value is an array of
movies, a profile record, or any other value. Each React component is a
class. Its constructor is the first render plus the mount effect. Its
methods are the event handlers. The answers of `prompt` and `confirm`, the
payloads of incoming events and messages, and whether a notification
channel fails are method parameters. The `some`, `filter` and `sort` calls
are pure functions (`MovieLists.HasId`, `MovieLists.WithoutId`,
`TitleOrder.SortByTitle`), and the lemmas about them carry the proofs.

Modules, one per source file or shared concept: `Types` (types.dfy),
`Storage` (storage.dfy), `MovieLists` (movie_lists.dfy, the list
operations both lists use), `TitleOrder` (title_order.dfy, the title
order and the sort), `Favorites` (favorites.dfy), `WatchLater`
(watch_later.dfy), `Profile` (user_profile.dfy) and `Genres`
(genres.dfy).

Three facts about the code shape the model:
- The watch-later page only loads and removes; no modelled file adds to
  the watch-later list.
- The favorites list sends no change notifications; only a watch-later
  removal does.
- The counter read on mount uses `.length` without an array check, unlike
  `updateCountFromStorage`. So the model's counter is `Option<int>`, where
  None stands for `undefined`.

## Model

| member | source | states |
|---|---|---|
| `Storage.ReadAfterWrite` | buscador-filmes/src/contexts/FavoritesContext.tsx:21-26 | `Get` after `setItem` of a key returns the value written, after `removeItem` nothing; either write leaves every other key reading as before |
| `Storage.LocalStorage.SetItem` | buscador-filmes/src/contexts/FavoritesContext.tsx:26 | writing a key replaces or creates that entry and changes no other (what `Get` then reads is `Storage.ReadAfterWrite`) |
| `Storage.LocalStorage.RemoveItem` | buscador-filmes/src/components/UserProfile.tsx:117 | removing a key drops that entry and changes no other, so `Get` then finds it absent |
| `MovieLists.HasId` | buscador-filmes/src/contexts/FavoritesContext.tsx:30 | the front-to-back `some` scan is true exactly when some entry carries the id |
| `MovieLists.WithoutId` | buscador-filmes/src/contexts/FavoritesContext.tsx:36 | the filtered list never contains the removed id and is no longer than the input |
| `MovieLists.WithoutIdCounts` | buscador-filmes/src/contexts/FavoritesContext.tsx:36 | every entry with another id keeps its exact multiplicity; entries with the id are all gone |
| `MovieLists.WithoutIdAppend` | buscador-filmes/src/contexts/FavoritesContext.tsx:36 | the filter distributes over concatenation, so kept entries keep their relative order |
| `MovieLists.WithoutAbsentId` | buscador-filmes/src/contexts/FavoritesContext.tsx:36 | removing an id that is not in the list leaves the list unchanged |
| `MovieLists.WithoutIdMembers` | buscador-filmes/src/pages/WatchLater.tsx:21 | a movie is in the result exactly when it was in the list and has a different id |
| `MovieLists.WithoutIdKeepsDistinct` | buscador-filmes/src/contexts/FavoritesContext.tsx:36 | filtering keeps ids pairwise distinct |
| `TitleOrder.TitleLe` | buscador-filmes/src/pages/WatchLater.tsx:15 | a title that is a prefix of another comes first; a non-empty title ordered before another: the other is non-empty and its first character is no smaller |
| `TitleOrder.InsertByTitle` | buscador-filmes/src/pages/WatchLater.tsx:15 | inserting into the sorted list adds one entry, and the inserted movie is in the result |
| `TitleOrder.SortByTitle` | buscador-filmes/src/pages/WatchLater.tsx:15 | the sorted copy has as many entries as the input (its order and contents: `SortByTitleCorrect`) |
| `TitleOrder.TitleLeTotal` | buscador-filmes/src/pages/WatchLater.tsx:15 | any two titles are comparable in the title order |
| `TitleOrder.TitleLeTransitive` | buscador-filmes/src/pages/WatchLater.tsx:15 | the title order is transitive |
| `TitleOrder.TitleLeAntisymmetric` | buscador-filmes/src/pages/WatchLater.tsx:15 | titles ordered both ways are equal |
| `TitleOrder.HeadFirst` | buscador-filmes/src/pages/WatchLater.tsx:15 | in a title-sorted list no entry comes before the head |
| `TitleOrder.InsertByTitlePermutes` | buscador-filmes/src/pages/WatchLater.tsx:15 | inserting one movie adds exactly that movie to the multiset of entries |
| `TitleOrder.InsertByTitleSorted` | buscador-filmes/src/pages/WatchLater.tsx:15 | inserting into a title-sorted list keeps it title-sorted |
| `TitleOrder.SortByTitleCorrect` | buscador-filmes/src/pages/WatchLater.tsx:15 | the sorted copy is in ascending title order and is a permutation of the input |
| `TitleOrder.SortByTitleOfSorted` | buscador-filmes/src/pages/WatchLater.tsx:15 | sorting a list that is already title-sorted returns it unchanged |
| `TitleOrder.WithoutIdKeepsSorted` | buscador-filmes/src/pages/WatchLater.tsx:21-22 | filtering a title-sorted list leaves it title-sorted, so the stored list stays sorted |
| `Favorites.ReloadAfterWriteBack` | buscador-filmes/src/contexts/FavoritesContext.tsx:20-27 | whatever list the effect writes back under `favoriteMovies` is loadable, and the next `InitialFavorites` read yields exactly that list |
| `Favorites.WithFavorite` | buscador-filmes/src/contexts/FavoritesContext.tsx:29-33 | after `addFavorite` the id is present, the old list is an unchanged prefix, and at most one entry is added |
| `Favorites.WithFavoriteEffect` | buscador-filmes/src/contexts/FavoritesContext.tsx:29-33 | after adding, the id is present; a new id is appended at the end behind the unchanged earlier entries; a present id changes nothing |
| `Favorites.WithFavoriteIdempotent` | buscador-filmes/src/contexts/FavoritesContext.tsx:29-33 | adding the same movie twice equals adding it once |
| `Favorites.WithFavoriteKeepsDistinct` | buscador-filmes/src/contexts/FavoritesContext.tsx:30-31 | adding keeps the ids pairwise distinct |
| `Favorites.AddThenRemove` | buscador-filmes/src/contexts/FavoritesContext.tsx:29-37 | adding a movie with an absent id and then removing that id restores the original list |
| `Favorites.FavoritesProvider.constructor` | buscador-filmes/src/contexts/FavoritesContext.tsx:19-27 | the provider starts with `InitialFavorites` of the stored value: the stored list, or empty when the key is absent; the mount effect writes it back |
| `Favorites.FavoritesProvider.WriteBack` | buscador-filmes/src/contexts/FavoritesContext.tsx:25-27 | storage under `favoriteMovies` becomes the current list; no other key changes |
| `Favorites.FavoritesProvider.AddFavorite` | buscador-filmes/src/contexts/FavoritesContext.tsx:29-33 | the list becomes `WithFavorite` of the old one, distinct ids stay distinct, and storage holds exactly the new list |
| `Favorites.FavoritesProvider.RemoveFavorite` | buscador-filmes/src/contexts/FavoritesContext.tsx:35-37 | the list becomes the filtered old one, the id is gone, distinct ids stay distinct, and storage holds exactly the new list |
| `WatchLater.LoadWatchLater` | buscador-filmes/src/pages/WatchLater.tsx:12-17 | an absent key loads as empty; a stored array loads title-sorted as a permutation of itself; any other value makes the load throw |
| `WatchLater.Toggled` | buscador-filmes/src/pages/WatchLater.tsx:78-92 | the heart flips whether the movie's id is among the favorites |
| `WatchLater.ToggleTwiceAbsent` | buscador-filmes/src/pages/WatchLater.tsx:78-92 | toggling the heart twice on a movie that is not a favorite restores the favorites list |
| `WatchLater.ToggleTwicePresent` | buscador-filmes/src/pages/WatchLater.tsx:78-92 | toggling a favorite twice moves it to the end and keeps the others in order |
| `WatchLater.WatchLaterPage.constructor` | buscador-filmes/src/pages/WatchLater.tsx:8-17 | for a stored array or an absent key, the page shows the loaded title-sorted list, and storage is untouched |
| `WatchLater.WatchLaterPage.HandleRemove` | buscador-filmes/src/pages/WatchLater.tsx:19-42 | without confirmation nothing changes; with it, the id is filtered out and storage holds the new list; each channel that works carries the new length (`CountEvent` as `detail.count`, `CountMessage` of type `update`); the list is replaced even when both channels fail |
| `WatchLater.WatchLaterPage.ToggleFavorite` | buscador-filmes/src/pages/WatchLater.tsx:78-92 | the heart removes a favorite by id and adds a non-favorite; the favorites in storage follow |
| `Profile.Bootstrapped` | buscador-filmes/src/components/UserProfile.tsx:25-27 | after the bootstrap `user_data` is present, the keys are the old ones plus `user_data`, and an existing profile is kept |
| `Profile.BootstrapEffect` | buscador-filmes/src/components/UserProfile.tsx:19-27 | the default user is written only when `user_data` is absent; an existing value is never overwritten; no other key changes; a second bootstrap changes nothing |
| `Profile.MountCount` | buscador-filmes/src/components/UserProfile.tsx:36-37 | the mount count is defined exactly for an array or an absent key, and is then non-negative |
| `Profile.AfterEvent` | buscador-filmes/src/components/UserProfile.tsx:49-62 | after an update event the counter is always defined, and non-negative when it came from a recount |
| `Profile.AfterMessage` | buscador-filmes/src/components/UserProfile.tsx:72-84 | a message never makes a defined counter undefined, and an `update` message always leaves it defined |
| `Profile.MountCountVersusRecount` | buscador-filmes/src/components/UserProfile.tsx:36-46 | the mount count equals the recount for an array or an absent key; for any other value it is undefined where the recount gives 0 |
| `Profile.CounterRules` | buscador-filmes/src/components/UserProfile.tsx:49-80 | a numeric event count is taken as is, else recount; a message whose type is not `update` changes nothing; an `update` message sets its numeric count, else recounts |
| `Profile.NotificationsAgree` | buscador-filmes/src/pages/WatchLater.tsx:22-34 | after a removal is stored, the event, the message, a count-less event and a storage recount all give the counter the new list length (through `CountEvent`, `CountMessage` and `Recount`) |
| `Profile.UserProfile.constructor` | buscador-filmes/src/components/UserProfile.tsx:10-37 | the menu starts closed, storage is bootstrapped, the displayed user is the stored one, and the counter is the mount count |
| `Profile.UserProfile.UpdateCountFromStorage` | buscador-filmes/src/components/UserProfile.tsx:43-48 | the counter becomes `Recount` of `watch_later_v1`: the stored list's length when it is an array, and 0 otherwise |
| `Profile.UserProfile.HandleCustomEvent` | buscador-filmes/src/components/UserProfile.tsx:49-62 | the counter becomes the event's numeric count, or a recount when there is none |
| `Profile.UserProfile.HandleMessage` | buscador-filmes/src/components/UserProfile.tsx:72-84 | the counter follows `AfterMessage`: unchanged unless the type is `update` |
| `Profile.UserProfile.HandleLogin` | buscador-filmes/src/components/UserProfile.tsx:103-113 | a cancelled or empty answer to either prompt changes neither storage nor the displayed user; when both are answered, `user_data` and the displayed user become exactly `{name, email}` and no other key changes |
| `Profile.UserProfile.HandleLogout` | buscador-filmes/src/components/UserProfile.tsx:115-121 | without confirmation nothing changes; with it, `user_data` is removed, the displayed user cleared and the menu closed |
| `Profile.UserProfile.ToggleMenu` | buscador-filmes/src/components/UserProfile.tsx:129 | the avatar button flips the menu |
| `Profile.UserProfile.CloseMenu` | buscador-filmes/src/components/UserProfile.tsx:160-175 | the navigation buttons close the menu |
| `Genres.GenresDistinct` | buscador-filmes/src/constants/genres.ts:1-20 | the list has 18 entries, pairwise distinct |
| `Genres.GenreMapTotal` | buscador-filmes/src/constants/genres.ts:22-25 | every `Genre` has a translation, and the map's keys are exactly the list |
| `Genres.GenreMapInOrder` | buscador-filmes/src/constants/genres.ts:25-44 | the i-th genre translates to the i-th English term |
| `Genres.EnglishClash` | buscador-filmes/src/constants/genres.ts:38-43 | among the English terms the only repeat is that of 'Horror' and 'Terror' |
| `Genres.DistinctCardinality` | buscador-filmes/src/constants/genres.ts:25-44 | a list without repeats has as many distinct elements as entries |
| `Genres.GenreMapValuesWithin` | buscador-filmes/src/constants/genres.ts:25-44 | every translation is one of the 17 distinct English terms |
| `Genres.GenreMapValues` | buscador-filmes/src/constants/genres.ts:25-44 | the set of translations is exactly the 17 distinct English terms |
| `Genres.GenreMapNotInjective` | buscador-filmes/src/constants/genres.ts:38-43 | 'Horror' and 'Terror' both map to 'Horror', that is the only clash, and the 18 names have 17 images |
| `Genres.GenreMapSamples` | buscador-filmes/src/constants/genres.ts:30-42 | 'Crime', 'Drama', 'Horror', 'Musical' and 'Romance' map to themselves; 'Suspense' maps to 'Thriller'; 'Ficção científica' maps to 'Sci-Fi' |

## Left out

- JSON encoding and decoding: storage holds already-parsed values. A stored text that fails to parse, a JSON string (whose `length` is its character count) and JSON `null` (on which `length` throws) are not modelled. `Value.Other` stands for any other non-array value.
- WatchLater.WatchLaterPage.constructor: requires the stored `watch_later_v1` value to be an array or absent. For any other value the spread into a copy throws inside the mount effect, nothing catches it, and the page cannot be used; the model has no such failed page.
- Favorites.FavoritesProvider.constructor: requires the stored `favoriteMovies` value to be an array or absent. For any other value the source keeps it as the state and fails later on `some`/`filter`; that failure is not modelled.
- TitleOrder.SortByTitle: `localeCompare` is locale-aware collation; the model uses plain lexicographic order on code points. Stability of the sort is built into the definition but not stated as a lemma.
- React scheduling: each handler runs to completion on the state it reads. The model does not capture batched `setState` or effects running after render. The listener registration and clean-up, the `BroadcastChannel` object's life, and cross-tab delivery are left out; a notification is only the payload value it carries.
- Numbers in event payloads are integers; fractional or NaN counts are not modelled.
- Profile.UserProfile.HandleLogin: the email prompt is shown only after a valid name; the model takes both answers up front, and the email answer is unused when the name is rejected.
- Concurrent writers from other tabs are not modelled. Under them `Favorites.FavoritesProvider.Valid` and `Profile.UserProfile.Valid` (storage mirrors the state) could be broken from outside.
- Navigation (`navigate`), rendering, the page title and the poster placeholder are not modelled.
- The remote catalog client (buscador-filmes/src/services/api.ts), search, detail and routing pages, and the image utility are not part of this model: they are network I/O and rendering glue.
- The favorites page's heart button always takes the remove branch (its `isFav` is the constant `true`), so it adds nothing beyond `RemoveFavorite`.
