/** Operations on an ordered list of movies keyed by `imdbID`, shared by the
    favorites list and the watch-later list: the `some` membership test and
    the `filter` that drops one id. */
module MovieLists {
  import opened Types

  /** `list.some(m => m.imdbID === id)`: scans from the front until an
      entry carries `id`. */
  function HasId(s: seq<Movie>, id: string): (r: bool)
    ensures r <==> exists i :: 0 <= i < |s| && s[i].imdbID == id
  {
    if s == [] then false
    else if s[0].imdbID == id then true
    else
      var rest := HasId(s[1..], id);
      assert forall i :: 0 < i < |s| ==> s[1..][i - 1] == s[i];
      rest
  }

  /** No two entries share an `imdbID`. */
  predicate DistinctIds(s: seq<Movie>) {
    forall i, j :: 0 <= i < j < |s| ==> s[i].imdbID != s[j].imdbID
  }

  /** `list.filter(m => m.imdbID !== id)` */
  function WithoutId(s: seq<Movie>, id: string): (r: seq<Movie>)
    ensures |r| <= |s|
    ensures !HasId(r, id)
  {
    if s == [] then []
    else (if s[0].imdbID == id then [] else [s[0]]) + WithoutId(s[1..], id)
  }

  /** Each movie keeps exactly its multiplicity unless it carries `id`, in
      which case none of it is left. */
  lemma {:induction false} WithoutIdCounts(s: seq<Movie>, id: string)
    ensures forall x :: multiset(WithoutId(s, id))[x] == if x.imdbID == id then 0 else multiset(s)[x]
  {
    if s != [] {
      WithoutIdCounts(s[1..], id);
      assert s == [s[0]] + s[1..];
    }
  }

  /** The filter keeps relative order: it distributes over concatenation. */
  lemma {:induction false} WithoutIdAppend(a: seq<Movie>, b: seq<Movie>, id: string)
    ensures WithoutId(a + b, id) == WithoutId(a, id) + WithoutId(b, id)
  {
    if a == [] {
      assert a + b == b;
    } else {
      assert (a + b)[1..] == a[1..] + b;
      WithoutIdAppend(a[1..], b, id);
    }
  }

  /** Removing an id that is not in the list changes nothing. */
  lemma {:induction false} WithoutAbsentId(s: seq<Movie>, id: string)
    requires !HasId(s, id)
    ensures WithoutId(s, id) == s
  {
    if s != [] {
      assert s[0].imdbID != id;
      assert !HasId(s[1..], id) by {
        forall i | 0 <= i < |s[1..]| ensures s[1..][i].imdbID != id {
          assert s[1..][i] == s[i + 1];
        }
      }
      WithoutAbsentId(s[1..], id);
    }
  }

  /** Every entry of the filtered list was an entry of the original. */
  lemma {:induction false} WithoutIdMembers(s: seq<Movie>, id: string)
    ensures forall x :: x in WithoutId(s, id) <==> x in s && x.imdbID != id
  {
    WithoutIdCounts(s, id);
    forall x ensures x in WithoutId(s, id) <==> x in s && x.imdbID != id {
      assert x in WithoutId(s, id) <==> multiset(WithoutId(s, id))[x] > 0;
      assert x in s <==> multiset(s)[x] > 0;
    }
  }

  /** Filtering keeps ids pairwise distinct. */
  lemma {:induction false} WithoutIdKeepsDistinct(s: seq<Movie>, id: string)
    requires DistinctIds(s)
    ensures DistinctIds(WithoutId(s, id))
  {
    if s != [] {
      var rest := WithoutId(s[1..], id);
      WithoutIdKeepsDistinct(s[1..], id);
      WithoutIdMembers(s[1..], id);
      forall k | 0 <= k < |rest| ensures rest[k].imdbID != s[0].imdbID {
        assert rest[k] in s[1..];
        var j :| 0 <= j < |s[1..]| && s[1..][j] == rest[k];
        assert s[j + 1] == rest[k];
      }
    }
  }
}
