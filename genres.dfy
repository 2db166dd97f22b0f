/** The genre selector's fixed list of Portuguese genre names and their
    translation to the catalog's English genre terms. */
module Genres {

  /** The list as the selector shows it. */
  const GENRES: seq<string> := [
    "Ação", "Aventura", "Animação", "Comédia", "Crime", "Documentário",
    "Drama", "Família", "Fantasia", "Ficção científica", "Guerra",
    "História", "Horror", "Musical", "Mistério", "Romance", "Suspense",
    "Terror"
  ]

  /** A member of the list. */
  type Genre = g: string | g in GENRES witness "Ação"

  /** Portuguese name to the English term the catalog is searched with. */
  const GENRE_MAP: map<string, string> := map[
    "Ação" := "Action",
    "Aventura" := "Adventure",
    "Animação" := "Animation",
    "Comédia" := "Comedy",
    "Crime" := "Crime",
    "Documentário" := "Documentary",
    "Drama" := "Drama",
    "Família" := "Family",
    "Fantasia" := "Fantasy",
    "Ficção científica" := "Sci-Fi",
    "Guerra" := "War",
    "História" := "History",
    "Horror" := "Horror",
    "Musical" := "Musical",
    "Mistério" := "Mystery",
    "Romance" := "Romance",
    "Suspense" := "Thriller",
    "Terror" := "Horror"
  ]

  /** The list has 18 entries, no two alike. */
  lemma GenresDistinct()
    ensures |GENRES| == 18
    ensures forall i, j :: 0 <= i < j < |GENRES| ==> GENRES[i] != GENRES[j]
  {
  }

  /** Every genre of the list has a translation, and nothing else does. */
  lemma GenreMapTotal()
    ensures forall g: Genre :: g in GENRE_MAP
    ensures GENRE_MAP.Keys == set g | g in GENRES
  {
  }

  /** The English terms, in the order of the list. */
  const ENGLISH: seq<string> := [
    "Action", "Adventure", "Animation", "Comedy", "Crime", "Documentary",
    "Drama", "Family", "Fantasy", "Sci-Fi", "War", "History", "Horror",
    "Musical", "Mystery", "Romance", "Thriller", "Horror"
  ]

  lemma GenreMapInOrder()
    ensures forall i :: 0 <= i < |GENRES| ==> GENRES[i] in GENRE_MAP && GENRE_MAP[GENRES[i]] == ENGLISH[i]
  {
  }

  /** The only two equal terms are those of 'Horror' (12) and 'Terror'
      (17). */
  lemma EnglishClash()
    ensures forall i, j :: 0 <= i < j < |ENGLISH| && ENGLISH[i] == ENGLISH[j] ==> i == 12 && j == 17
  {
  }

  /** A list without repetitions has as many distinct elements as entries. */
  lemma {:induction false} DistinctCardinality(s: seq<string>)
    requires forall i, j :: 0 <= i < j < |s| ==> s[i] != s[j]
    ensures |set x | x in s| == |s|
  {
    if s != [] {
      var rest := s[1..];
      DistinctCardinality(rest);
      assert (set x | x in s) == (set x | x in rest) + {s[0]};
      assert s[0] !in rest by {
        forall k | 0 <= k < |rest| ensures rest[k] != s[0] {
          assert rest[k] == s[k + 1];
        }
      }
    }
  }

  /** Every translation is among the first 17 terms of ENGLISH. */
  lemma GenreMapValuesWithin()
    ensures forall v :: v in GENRE_MAP.Values ==> v in ENGLISH[..17]
  {
    GenreMapTotal();
    GenreMapInOrder();
    forall v | v in GENRE_MAP.Values ensures v in ENGLISH[..17] {
      var k :| k in GENRE_MAP && GENRE_MAP[k] == v;
      var i :| 0 <= i < |GENRES| && GENRES[i] == k;
      assert v == ENGLISH[..17][if i == 17 then 12 else i];
    }
  }

  /** The translations are the first 17 terms of ENGLISH. */
  lemma GenreMapValues()
    ensures GENRE_MAP.Values == set t | t in ENGLISH[..17]
  {
    GenreMapValuesWithin();
    GenreMapInOrder();
    forall i | 0 <= i < 17 ensures ENGLISH[..17][i] in GENRE_MAP.Values {
      assert GENRE_MAP[GENRES[i]] == ENGLISH[i];
    }
  }

  /** 'Horror' and 'Terror' share a translation, and that is the only
      clash: the 18 names have 17 distinct English terms. */
  lemma GenreMapNotInjective()
    ensures GENRE_MAP["Horror"] == GENRE_MAP["Terror"] == "Horror"
    ensures forall i, j :: 0 <= i < j < |GENRES| && GENRE_MAP[GENRES[i]] == GENRE_MAP[GENRES[j]] ==>
      GENRES[i] == "Horror" && GENRES[j] == "Terror"
    ensures |GENRE_MAP.Values| == 17
  {
    GenreMapInOrder();
    EnglishClash();
    GenreMapValues();
    DistinctCardinality(ENGLISH[..17]);
  }

  /** Names the catalog uses unchanged, and the two that are not literal
      translations. */
  lemma GenreMapSamples()
    ensures forall g :: g in ["Crime", "Drama", "Horror", "Musical", "Romance"] ==> GENRE_MAP[g] == g
    ensures GENRE_MAP["Suspense"] == "Thriller"
    ensures GENRE_MAP["Ficção científica"] == "Sci-Fi"
  {
  }
}
