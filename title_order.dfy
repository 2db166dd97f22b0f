/** The order the watch-later page shows its list in: ascending by title.
    The browser's locale-aware `localeCompare` is modelled by plain
    lexicographic order on code points. */
module TitleOrder {
  import opened Types
  import opened MovieLists

  /** Lexicographic `a <= b`. */
  function TitleLe(a: string, b: string): (r: bool)
    ensures a <= b ==> r
    ensures r && |a| > 0 ==> |b| > 0 && a[0] <= b[0]
    decreases |a|
  {
    |a| == 0 || (|b| > 0 && (a[0] < b[0] || (a[0] == b[0] && TitleLe(a[1..], b[1..]))))
  }

  lemma {:induction false} TitleLeTotal(a: string, b: string)
    ensures TitleLe(a, b) || TitleLe(b, a)
    decreases |a|
  {
    if |a| > 0 && |b| > 0 && a[0] == b[0] {
      TitleLeTotal(a[1..], b[1..]);
    }
  }

  lemma {:induction false} TitleLeTransitive(a: string, b: string, c: string)
    requires TitleLe(a, b) && TitleLe(b, c)
    ensures TitleLe(a, c)
    decreases |a|
  {
    if |a| > 0 && a[0] == b[0] && b[0] == c[0] {
      TitleLeTransitive(a[1..], b[1..], c[1..]);
    }
  }

  lemma {:induction false} TitleLeAntisymmetric(a: string, b: string)
    requires TitleLe(a, b) && TitleLe(b, a)
    ensures a == b
    decreases |a|
  {
    if |a| > 0 {
      TitleLeAntisymmetric(a[1..], b[1..]);
      assert a == [a[0]] + a[1..] && b == [b[0]] + b[1..];
    }
  }

  predicate SortedByTitle(s: seq<Movie>) {
    forall i, j :: 0 <= i < j < |s| ==> TitleLe(s[i].Title, s[j].Title)
  }

  /** Places `m` before the first entry it does not come after; entries
      with an equal title keep `m` in front, as a stable sort does. */
  function InsertByTitle(m: Movie, s: seq<Movie>): (r: seq<Movie>)
    ensures |r| == |s| + 1
    ensures m in r
  {
    if s == [] then [m]
    else if TitleLe(m.Title, s[0].Title) then [m] + s
    else [s[0]] + InsertByTitle(m, s[1..])
  }

  /** `[...list].sort((a, b) => a.Title.localeCompare(b.Title))` */
  function SortByTitle(s: seq<Movie>): (r: seq<Movie>)
    ensures |r| == |s|
  {
    if s == [] then [] else InsertByTitle(s[0], SortByTitle(s[1..]))
  }

  lemma {:induction false} InsertByTitlePermutes(m: Movie, s: seq<Movie>)
    ensures multiset(InsertByTitle(m, s)) == multiset(s) + multiset{m}
  {
    if s != [] {
      assert s == [s[0]] + s[1..];
      if !TitleLe(m.Title, s[0].Title) {
        InsertByTitlePermutes(m, s[1..]);
      }
    }
  }

  /** Every entry of a sorted list comes after its head. */
  lemma HeadFirst(s: seq<Movie>, x: Movie)
    requires SortedByTitle(s) && x in s
    ensures TitleLe(s[0].Title, x.Title)
  {
  }

  lemma {:induction false} InsertByTitleSorted(m: Movie, s: seq<Movie>)
    requires SortedByTitle(s)
    ensures SortedByTitle(InsertByTitle(m, s))
  {
    if s != [] {
      if TitleLe(m.Title, s[0].Title) {
        forall j | 0 < j < |s| + 1 ensures TitleLe(([m] + s)[0].Title, ([m] + s)[j].Title) {
          if j > 1 {
            TitleLeTransitive(m.Title, s[0].Title, s[j - 1].Title);
          }
        }
      } else {
        TitleLeTotal(m.Title, s[0].Title);
        var rest := InsertByTitle(m, s[1..]);
        InsertByTitleSorted(m, s[1..]);
        InsertByTitlePermutes(m, s[1..]);
        forall j | 0 <= j < |rest| ensures TitleLe(s[0].Title, rest[j].Title) {
          assert rest[j] in multiset(rest);
          if rest[j] != m {
            HeadFirst(s, rest[j]);
          }
        }
      }
    }
  }

  /** The loaded watch-later list is sorted and holds exactly the stored
      entries. */
  lemma {:induction false} SortByTitleCorrect(s: seq<Movie>)
    ensures SortedByTitle(SortByTitle(s))
    ensures multiset(SortByTitle(s)) == multiset(s)
  {
    if s != [] {
      SortByTitleCorrect(s[1..]);
      InsertByTitlePermutes(s[0], SortByTitle(s[1..]));
      InsertByTitleSorted(s[0], SortByTitle(s[1..]));
      assert s == [s[0]] + s[1..];
    }
  }

  /** A list that is already in title order is left as it is. */
  lemma {:induction false} SortByTitleOfSorted(s: seq<Movie>)
    requires SortedByTitle(s)
    ensures SortByTitle(s) == s
  {
    if s != [] {
      SortByTitleOfSorted(s[1..]);
      if |s| > 1 {
        assert TitleLe(s[0].Title, s[1].Title);
      }
    }
  }

  /** Dropping an id from a title-sorted list leaves it title-sorted. */
  lemma {:induction false} WithoutIdKeepsSorted(s: seq<Movie>, id: string)
    requires SortedByTitle(s)
    ensures SortedByTitle(WithoutId(s, id))
  {
    if s != [] {
      var rest := WithoutId(s[1..], id);
      WithoutIdKeepsSorted(s[1..], id);
      WithoutIdMembers(s[1..], id);
      forall k | 0 <= k < |rest| ensures TitleLe(s[0].Title, rest[k].Title) {
        assert rest[k] in s[1..];
        var j :| 0 <= j < |s[1..]| && s[1..][j] == rest[k];
        assert s[j + 1] == rest[k];
      }
    }
  }
}
