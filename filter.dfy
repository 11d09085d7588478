/**
 * The `filteredImages` computation: the catalog records that match the
 * selected category and the search query, in catalog order.
 */
module Filter {
  import opened Text
  import opened Catalog

  const AllCategories: string := "All"

  /** A record passes the category filter when "All" is selected or its category is the selected one. */
  predicate MatchesCategory(img: GalleryImage, selected: string)
  {
    selected == AllCategories || img.category == selected
  }

  /**
   * A record passes the search when the query is empty or the lower-cased query
   * occurs in the lower-cased description, category or alt text.
   */
  predicate MatchesSearch(img: GalleryImage, query: string)
  {
    query == []
    || Contains(ToLower(img.description), ToLower(query))
    || Contains(ToLower(img.category), ToLower(query))
    || Contains(ToLower(img.alt), ToLower(query))
  }

  predicate Matches(img: GalleryImage, selected: string, query: string)
  {
    MatchesCategory(img, selected) && MatchesSearch(img, query)
  }

  /** `images.filter(...)`: the matching records, kept in order. */
  function FilterImages(images: seq<GalleryImage>, selected: string, query: string): (r: seq<GalleryImage>)
    ensures |r| <= |images|
    ensures forall x :: x in r ==> x in images && Matches(x, selected, query)
  {
    if images == [] then []
    else if Matches(images[0], selected, query) then [images[0]] + FilterImages(images[1..], selected, query)
    else FilterImages(images[1..], selected, query)
  }

  /** `a` is `b` with some elements removed and the rest in their original order. */
  predicate IsSubsequence<T(==)>(a: seq<T>, b: seq<T>)
    decreases |b|
  {
    if a == [] then true
    else if b == [] then false
    else (a[0] == b[0] && IsSubsequence(a[1..], b[1..])) || IsSubsequence(a, b[1..])
  }

  /** A subsequence is no longer than the sequence it is taken from. */
  lemma {:induction false} SubsequenceNoLonger<T>(a: seq<T>, b: seq<T>)
    requires IsSubsequence(a, b)
    ensures |a| <= |b|
    decreases |b|
  {
    if a != [] {
      if a[0] == b[0] && IsSubsequence(a[1..], b[1..]) {
        SubsequenceNoLonger(a[1..], b[1..]);
      } else {
        SubsequenceNoLonger(a, b[1..]);
      }
    }
  }

  /** The filtered list is a subsequence of the catalog: nothing is added and order is kept. */
  lemma {:induction false} FilterIsSubsequence(images: seq<GalleryImage>, selected: string, query: string)
    ensures IsSubsequence(FilterImages(images, selected, query), images)
  {
    if images != [] {
      FilterIsSubsequence(images[1..], selected, query);
    }
  }

  /** A record is shown iff it is in the catalog and matches both on category and on search. */
  lemma {:induction false} FilterMembership(images: seq<GalleryImage>, selected: string, query: string, x: GalleryImage)
    ensures x in FilterImages(images, selected, query) <==> x in images && Matches(x, selected, query)
  {
    if images != [] {
      FilterMembership(images[1..], selected, query, x);
      assert x in images <==> x == images[0] || x in images[1..];
    }
  }

  /** Filtering a concatenation filters each part. */
  lemma {:induction false} FilterAppend(a: seq<GalleryImage>, b: seq<GalleryImage>, selected: string, query: string)
    ensures FilterImages(a + b, selected, query) == FilterImages(a, selected, query) + FilterImages(b, selected, query)
  {
    if a != [] {
      assert (a + b)[1..] == a[1..] + b;
      FilterAppend(a[1..], b, selected, query);
    } else {
      assert a + b == b;
    }
  }

  /** With "All" selected and an empty query every record is shown, in catalog order. */
  lemma {:induction false} FilterAllEmptyIsIdentity(images: seq<GalleryImage>)
    ensures FilterImages(images, AllCategories, "") == images
  {
    if images != [] {
      FilterAllEmptyIsIdentity(images[1..]);
    }
  }

  /** Filtering the filtered list again with the same settings changes nothing. */
  lemma {:induction false} FilterIdempotent(images: seq<GalleryImage>, selected: string, query: string)
    ensures FilterImages(FilterImages(images, selected, query), selected, query) == FilterImages(images, selected, query)
  {
    if images != [] {
      FilterIdempotent(images[1..], selected, query);
    }
  }

  /** The search is case-insensitive: queries that lower-case alike select the same records. */
  lemma {:induction false} FilterCaseInsensitive(images: seq<GalleryImage>, selected: string, q1: string, q2: string)
    requires ToLower(q1) == ToLower(q2)
    ensures FilterImages(images, selected, q1) == FilterImages(images, selected, q2)
  {
    ToLowerEmpty(q1);
    ToLowerEmpty(q2);
    if images != [] {
      FilterCaseInsensitive(images[1..], selected, q1, q2);
    }
  }

  /** In particular a query and its lower-cased form select the same records. */
  lemma FilterIgnoresQueryCase(images: seq<GalleryImage>, selected: string, query: string)
    ensures FilterImages(images, selected, query) == FilterImages(images, selected, ToLower(query))
  {
    ToLowerIdempotent(query);
    FilterCaseInsensitive(images, selected, query, ToLower(query));
  }

  /** A match in any one of description, category or alt suffices for a record of the right category. */
  lemma AnyFieldSuffices(images: seq<GalleryImage>, selected: string, query: string, x: GalleryImage, field: string)
    requires x in images && MatchesCategory(x, selected)
    requires field == x.description || field == x.category || field == x.alt
    requires Contains(ToLower(field), ToLower(query))
    ensures x in FilterImages(images, selected, query)
  {
    FilterMembership(images, selected, query, x);
  }

  /** A record whose fields all miss the non-empty query is hidden, whatever the category. */
  lemma NoFieldHides(images: seq<GalleryImage>, selected: string, query: string, x: GalleryImage)
    requires query != []
    requires !Contains(ToLower(x.description), ToLower(query))
    requires !Contains(ToLower(x.category), ToLower(query))
    requires !Contains(ToLower(x.alt), ToLower(query))
    ensures x !in FilterImages(images, selected, query)
  {
    FilterMembership(images, selected, query, x);
  }

  /** The search only narrows: a query keeps a subsequence of the category's records. */
  lemma {:induction false} SearchNarrowsCategory(images: seq<GalleryImage>, selected: string, query: string)
    ensures IsSubsequence(FilterImages(images, selected, query), FilterImages(images, selected, ""))
  {
    if images != [] {
      SearchNarrowsCategory(images[1..], selected, query);
    }
  }

  /** Clearing the query never shortens the list: only a longer list of the same category can appear. */
  lemma ClearingWidens(images: seq<GalleryImage>, selected: string, query: string)
    ensures |FilterImages(images, selected, query)| <= |FilterImages(images, selected, "")|
  {
    SearchNarrowsCategory(images, selected, query);
    SubsequenceNoLonger(FilterImages(images, selected, query), FilterImages(images, selected, ""));
  }

  /** The query "TEAM" selects what "team" selects. */
  lemma UpperCaseQueryScenario(images: seq<GalleryImage>, selected: string)
    ensures FilterImages(images, selected, "TEAM") == FilterImages(images, selected, "team")
  {
    assert ToLower("TEAM") == ToLower("team");
    FilterCaseInsensitive(images, selected, "TEAM", "team");
  }

  /** One unfolding of the filter with an empty query, at position `k`. */
  lemma FilterStep(g: seq<GalleryImage>, k: nat, c: string)
    requires k < |g|
    ensures FilterImages(g[k..], c, "") == (if MatchesCategory(g[k], c) then [g[k]] else []) + FilterImages(g[k+1..], c, "")
  {
    assert g[k..][1..] == g[k+1..];
  }

  /** A nine-record list whose "Team Vibes" records sit where the catalog's do. */
  predicate TeamAt(g: seq<GalleryImage>)
  {
    |g| == 9 && forall k :: 0 <= k < |g| ==> (g[k].category == "Team Vibes" <==> k == 0 || k == 1 || k == 6)
  }

  lemma TeamTail(g: seq<GalleryImage>)
    requires TeamAt(g)
    ensures FilterImages(g[6..], "Team Vibes", "") == [g[6]]
  {
    FilterStep(g, 8, "Team Vibes");
    FilterStep(g, 7, "Team Vibes");
    FilterStep(g, 6, "Team Vibes");
  }

  lemma TeamMiddle(g: seq<GalleryImage>)
    requires TeamAt(g)
    ensures FilterImages(g[2..], "Team Vibes", "") == FilterImages(g[6..], "Team Vibes", "")
  {
    FilterStep(g, 5, "Team Vibes");
    FilterStep(g, 4, "Team Vibes");
    FilterStep(g, 3, "Team Vibes");
    FilterStep(g, 2, "Team Vibes");
  }

  lemma TeamVibesShape(g: seq<GalleryImage>)
    requires TeamAt(g)
    ensures FilterImages(g, "Team Vibes", "") == [g[0], g[1], g[6]]
  {
    TeamTail(g);
    TeamMiddle(g);
    FilterStep(g, 1, "Team Vibes");
    FilterStep(g, 0, "Team Vibes");
    assert g[0..] == g;
  }

  /** In the catalog, exactly the records at positions 0, 1 and 6 (ids 1, 2 and 7) are in "Team Vibes". */
  lemma TeamVibesRecords()
    ensures TeamAt(GalleryImages)
  {
  }

  /** Selecting "Team Vibes" with an empty query shows the catalog's records 1, 2 and 7, in that order. */
  lemma TeamVibesScenario()
    ensures FilterImages(GalleryImages, "Team Vibes", "") == [GalleryImages[0], GalleryImages[1], GalleryImages[6]]
  {
    TeamVibesRecords();
    TeamVibesShape(GalleryImages);
  }
}
