/** The search view's data logic (src/pages/ImageSearch.tsx): a case-insensitive
    filter over name and tags, an optional descending sort, and a page window of
    twelve results. The clock and date parsing are outside the model: `timeOf`
    stands for `new Date(createdAt).getTime()`. */
module ImageSearch {
  import opened Records
  import opened Text
  import Seqs

  datatype SearchMode = Exact | Fuzzy

  datatype SortBy = Relevance | Date | Size

  const ImagesPerPage: nat := 12

  // ---------------------------------------------------------------- filter

  /** Exact mode: the lower-cased term equals the lower-cased name or some lower-cased tag. */
  predicate MatchesExact(img: Image, term: string)
  {
    Lower(img.name) == Lower(term) ||
    exists i :: 0 <= i < |img.tags| && Lower(img.tags[i]) == Lower(term)
  }

  /** Fuzzy mode: the lower-cased term occurs in the lower-cased name or in some lower-cased tag. */
  predicate MatchesFuzzy(img: Image, term: string)
  {
    Contains(Lower(img.name), Lower(term)) ||
    exists i :: 0 <= i < |img.tags| && Contains(Lower(img.tags[i]), Lower(term))
  }

  predicate Matches(img: Image, term: string, mode: SearchMode)
  {
    if mode == Exact then MatchesExact(img, term) else MatchesFuzzy(img, term)
  }

  function Matcher(term: string, mode: SearchMode): Image -> bool
  {
    (img: Image) => Matches(img, term, mode)
  }

  /** `images.filter(...)`: the matching images, in the order of `images`. */
  function FilterImages(images: seq<Image>, term: string, mode: SearchMode): (r: seq<Image>)
    ensures forall img :: img in r <==> img in images && Matches(img, term, mode)
    ensures forall img :: multiset(r)[img] == if Matches(img, term, mode) then multiset(images)[img] else 0
    ensures Seqs.IsSubsequence(r, images)
  {
    var r := Seqs.Filter(images, Matcher(term, mode));
    assert forall img :: img in r <==> img in images && Matches(img, term, mode) by {
      forall img ensures img in r <==> img in images && Matches(img, term, mode) {
        Seqs.FilterMember(images, Matcher(term, mode), img);
      }
    }
    r
  }

  /** Fuzzy matching, stated with substring positions instead of `includes`. */
  lemma FuzzyByPosition(img: Image, term: string)
    ensures MatchesFuzzy(img, term) <==>
      (exists p :: OccursAt(Lower(img.name), Lower(term), p)) ||
      (exists i, p :: 0 <= i < |img.tags| && OccursAt(Lower(img.tags[i]), Lower(term), p))
  {
    ContainsIff(Lower(img.name), Lower(term));
    forall i | 0 <= i < |img.tags| {
      ContainsIff(Lower(img.tags[i]), Lower(term));
    }
  }

  /** Every exact match is a fuzzy match. */
  lemma ExactImpliesFuzzy(img: Image, term: string)
    ensures MatchesExact(img, term) ==> MatchesFuzzy(img, term)
  {
    if Lower(img.name) == Lower(term) {
      ContainsTrivial(Lower(term));
    } else if MatchesExact(img, term) {
      var i :| 0 <= i < |img.tags| && Lower(img.tags[i]) == Lower(term);
      ContainsTrivial(Lower(term));
    }
  }

  /** Every image exact mode keeps, fuzzy mode keeps too. */
  lemma ExactResultsWithinFuzzy(images: seq<Image>, term: string)
    ensures forall img :: img in FilterImages(images, term, Exact) ==> img in FilterImages(images, term, Fuzzy)
  {
    forall img | img in FilterImages(images, term, Exact)
      ensures img in FilterImages(images, term, Fuzzy)
    {
      ExactImpliesFuzzy(img, term);
    }
  }

  /** With an empty term, fuzzy mode keeps every image, in order. */
  lemma EmptyTermFuzzyKeepsAll(images: seq<Image>)
    ensures FilterImages(images, "", Fuzzy) == images
  {
    forall i | 0 <= i < |images| ensures Matcher("", Fuzzy)(images[i]) {
      ContainsTrivial(Lower(images[i].name));
    }
    Seqs.FilterKeepsAll(images, Matcher("", Fuzzy));
  }

  /** With an empty term, exact mode keeps only images with an empty name or an empty tag. */
  lemma EmptyTermExact(images: seq<Image>)
    ensures forall img :: img in FilterImages(images, "", Exact) <==>
      img in images && (img.name == "" || "" in img.tags)
  {
    forall img | img in images
      ensures Matches(img, "", Exact) <==> img.name == "" || "" in img.tags
    {
      if "" in img.tags {
        var i :| 0 <= i < |img.tags| && img.tags[i] == "";
        assert Lower(img.tags[i]) == "";
      }
    }
  }

  /** "cat" matches an image named "Cat" in both modes, and one named "cat.png" only in fuzzy mode. */
  lemma CatExample(a: Image, b: Image)
    requires a.name == "Cat" && a.tags == []
    requires b.name == "cat.png" && b.tags == []
    ensures Matches(a, "cat", Exact) && Matches(a, "cat", Fuzzy)
    ensures !Matches(b, "cat", Exact) && Matches(b, "cat", Fuzzy)
  {
    assert Lower("Cat") == "cat";
    assert Lower("cat.png") == "cat.png";
    assert Lower("cat") == "cat";
    ContainsTrivial("cat");
    assert "cat.png"[..3] == "cat";
  }

  // ---------------------------------------------------------------- sort

  /** Adjacent elements are non-increasing in `key`. */
  predicate SortedDesc<T>(s: seq<T>, key: T -> int)
  {
    forall i :: 0 < i < |s| ==> key(s[i - 1]) >= key(s[i])
  }

  /** Inserts `x` before the first element whose key is not above `x`'s. */
  function InsertDesc<T(==)>(x: T, s: seq<T>, key: T -> int): (r: seq<T>)
    requires SortedDesc(s, key)
    ensures SortedDesc(r, key)
    ensures multiset(r) == multiset(s) + multiset{x}
    ensures |r| == |s| + 1 && (r[0] == x || (s != [] && r[0] == s[0]))
  {
    if s == [] || key(x) >= key(s[0]) then [x] + s
    else
      assert s == [s[0]] + s[1..];
      [s[0]] + InsertDesc(x, s[1..], key)
  }

  /** `sorted.sort((a, b) => key(b) - key(a))`: a descending permutation of `s`. */
  function SortDesc<T(==)>(s: seq<T>, key: T -> int): (r: seq<T>)
    ensures SortedDesc(r, key)
    ensures multiset(r) == multiset(s)
  {
    if s == [] then []
    else
      assert s == [s[0]] + s[1..];
      InsertDesc(s[0], SortDesc(s[1..], key), key)
  }

  /** Adjacent order gives order between any two positions. */
  lemma {:induction false} SortedDescPairwise<T>(s: seq<T>, key: T -> int)
    requires SortedDesc(s, key)
    ensures forall i, j :: 0 <= i <= j < |s| ==> key(s[i]) >= key(s[j])
  {
    if |s| > 1 {
      SortedDescPairwise(s[1..], key);
      forall i, j | 0 <= i <= j < |s| ensures key(s[i]) >= key(s[j]) {
        if 0 < i {
          assert s[i] == s[1..][i - 1] && s[j] == s[1..][j - 1];
        } else if 0 < j {
          assert s[1] == s[1..][0] && s[j] == s[1..][j - 1];
        }
      }
    }
  }

  function DateKey(timeOf: string -> int): Image -> int
  {
    (img: Image) => timeOf(img.attributes.createdAt)
  }

  /** `parseInt(img.attributes.size)`. */
  function SizeKey(img: Image): int
  {
    ParseLeadingInt(img.attributes.size)
  }

  /** Step 2 of the pipeline, on a fresh copy of the filtered list. */
  function Arrange(filtered: seq<Image>, sortBy: SortBy, timeOf: string -> int): (r: seq<Image>)
    ensures multiset(r) == multiset(filtered)
    ensures sortBy == Relevance ==> r == filtered
    ensures sortBy == Date ==> SortedDesc(r, DateKey(timeOf))
    ensures sortBy == Size ==> SortedDesc(r, SizeKey)
  {
    match sortBy
    case Relevance => filtered
    case Date => SortDesc(filtered, DateKey(timeOf))
    case Size => SortDesc(filtered, SizeKey)
  }

  /** Three images dated 2024-01-01, 2024-06-01 and 2023-12-01 come out newest first. */
  lemma DateSortExample(a: Image, b: Image, c: Image, timeOf: string -> int)
    requires a.attributes.createdAt == "2024-01-01"
    requires b.attributes.createdAt == "2024-06-01"
    requires c.attributes.createdAt == "2023-12-01"
    requires timeOf("2024-06-01") > timeOf("2024-01-01") > timeOf("2023-12-01")
    ensures Arrange([a, b, c], Date, timeOf) == [b, a, c]
  {
    var key := DateKey(timeOf);
    assert key(b) > key(a) > key(c);
    var s1 := InsertDesc(c, [], key);
    assert s1 == [c];
    var s2 := InsertDesc(b, s1, key);
    assert s2 == [b, c];
    var t := InsertDesc(a, [c], key);
    assert t == [a, c];
    var s3 := InsertDesc(a, s2, key);
    assert s3 == [b] + t;
    assert SortDesc([c], key) == s1;
    assert [b, c][1..] == [c];
    assert SortDesc([b, c], key) == s2;
    assert [a, b, c][1..] == [b, c];
    assert SortDesc([a, b, c], key) == s3;
  }

  /** The result list: filter, then arrange. */
  function Results(images: seq<Image>, term: string, mode: SearchMode, sortBy: SortBy,
                   timeOf: string -> int): seq<Image>
  {
    Arrange(FilterImages(images, term, mode), sortBy, timeOf)
  }

  /** The results hold exactly the matching images, as often as `images` holds them. */
  lemma ResultsArePermutedMatches(images: seq<Image>, term: string, mode: SearchMode,
                                  sortBy: SortBy, timeOf: string -> int)
    ensures forall img :: img in Results(images, term, mode, sortBy, timeOf) <==>
      img in images && Matches(img, term, mode)
    ensures forall img :: multiset(Results(images, term, mode, sortBy, timeOf))[img]
                          == (if Matches(img, term, mode) then multiset(images)[img] else 0)
    ensures sortBy == Relevance ==> Seqs.IsSubsequence(Results(images, term, mode, sortBy, timeOf), images)
  {
    var f := FilterImages(images, term, mode);
    var r := Results(images, term, mode, sortBy, timeOf);
    assert f == Seqs.Filter(images, Matcher(term, mode));
    forall img ensures img in r <==> img in f {
      assert img in r <==> multiset(r)[img] > 0;
      assert img in f <==> multiset(f)[img] > 0;
    }
  }

  // ---------------------------------------------------------------- paginate

  /** `Math.ceil(n / imagesPerPage)`. */
  function PageCount(n: nat): (r: nat)
    ensures ImagesPerPage * r >= n
    ensures r > 0 ==> ImagesPerPage * (r - 1) < n
  {
    (n + ImagesPerPage - 1) / ImagesPerPage
  }

  /** The index `Array.prototype.slice` derives from a relative bound. */
  function SliceIndex(rel: int, len: nat): (k: nat)
    ensures k <= len
    ensures 0 <= rel ==> k == if rel < len then rel else len
  {
    if rel < 0 then (if len + rel < 0 then 0 else len + rel)
    else if rel < len then rel else len
  }

  /** `s.slice(start, end)`. */
  function Slice<T>(s: seq<T>, start: int, end: int): seq<T>
  {
    var k := SliceIndex(start, |s|);
    var f := SliceIndex(end, |s|);
    if k < f then s[k..f] else []
  }

  /** `filteredImages.slice((currentPage - 1) * imagesPerPage, currentPage * imagesPerPage)`. */
  function Page<T>(s: seq<T>, currentPage: int): seq<T>
  {
    Slice(s, (currentPage - 1) * ImagesPerPage, currentPage * ImagesPerPage)
  }

  function Min(a: int, b: int): int { if a < b then a else b }

  /** What page `p` holds for a page the buttons can select, and its size. */
  lemma PageWindow<T>(s: seq<T>, p: int)
    requires 1 <= p
    ensures (p - 1) * ImagesPerPage < |s| ==>
      Page(s, p) == s[(p - 1) * ImagesPerPage .. Min(p * ImagesPerPage, |s|)]
    ensures (p - 1) * ImagesPerPage >= |s| ==> Page(s, p) == []
    ensures |Page(s, p)| <= ImagesPerPage
    ensures p < PageCount(|s|) ==> |Page(s, p)| == ImagesPerPage
    ensures p > PageCount(|s|) ==> Page(s, p) == []
  {
  }

  /** Pages `p` through `last`, concatenated in order. */
  function PagesFrom<T>(s: seq<T>, p: int, last: int): seq<T>
    decreases last - p
  {
    if p > last then [] else Page(s, p) + PagesFrom(s, p + 1, last)
  }

  lemma {:induction false} PagesFromSuffix<T>(s: seq<T>, p: int)
    requires 1 <= p <= PageCount(|s|) + 1
    ensures PagesFrom(s, p, PageCount(|s|)) == s[Min((p - 1) * ImagesPerPage, |s|)..]
    decreases PageCount(|s|) + 1 - p
  {
    var last := PageCount(|s|);
    if p <= last {
      PagesFromSuffix(s, p + 1);
      PageWindow(s, p);
      var lo := (p - 1) * ImagesPerPage;
      var hi := Min(p * ImagesPerPage, |s|);
      assert lo < |s|;
      assert s[lo..] == s[lo..hi] + s[hi..];
    }
  }

  /** Concatenating pages 1..pageCount reproduces the result list exactly. */
  lemma PagesConcatenate<T>(s: seq<T>)
    ensures PagesFrom(s, 1, PageCount(|s|)) == s
  {
    PagesFromSuffix(s, 1);
  }

  /** 25 results make three pages, the last holding one image. */
  lemma TwentyFiveResults<T>(s: seq<T>)
    requires |s| == 25
    ensures PageCount(|s|) == 3 && |Page(s, 3)| == 1
  {
    PageWindow(s, 3);
  }

  // ---------------------------------------------------------------- view state

  /** The state the search view keeps; `results` caches the pipeline's output. */
  datatype SearchView = SearchView(
    term: string,
    mode: SearchMode,
    sortBy: SortBy,
    currentPage: int,
    images: seq<Image>,
    results: seq<Image>)

  /** The cache agrees with the inputs it was computed from. */
  predicate Consistent(v: SearchView, timeOf: string -> int)
  {
    v.results == Results(v.images, v.term, v.mode, v.sortBy, timeOf)
  }

  /** The effect that re-runs the pipeline and resets to page 1. */
  function Refresh(v: SearchView, timeOf: string -> int): (r: SearchView)
    ensures Consistent(r, timeOf) && r.currentPage == 1
    ensures r.term == v.term && r.mode == v.mode && r.sortBy == v.sortBy && r.images == v.images
  {
    v.(results := Results(v.images, v.term, v.mode, v.sortBy, timeOf), currentPage := 1)
  }

  /** Mounting: nothing loaded, fuzzy mode, relevance order, page 1. */
  function InitialView(timeOf: string -> int): (v: SearchView)
    ensures Consistent(v, timeOf) && v.results == [] && v.currentPage == 1
    ensures v.term == "" && v.mode == Fuzzy && v.sortBy == Relevance && v.images == []
  {
    Refresh(SearchView("", Fuzzy, Relevance, 1, [], []), timeOf)
  }

  /** Setting a state variable to its current value does not re-run the effect. */
  function SetTerm(v: SearchView, term: string, timeOf: string -> int): SearchView
  {
    if term == v.term then v else Refresh(v.(term := term), timeOf)
  }

  function SetMode(v: SearchView, mode: SearchMode, timeOf: string -> int): SearchView
  {
    if mode == v.mode then v else Refresh(v.(mode := mode), timeOf)
  }

  function SetSortBy(v: SearchView, sortBy: SortBy, timeOf: string -> int): SearchView
  {
    if sortBy == v.sortBy then v else Refresh(v.(sortBy := sortBy), timeOf)
  }

  /** Loading the store always hands over a new array, so the effect re-runs. */
  function SetImages(v: SearchView, images: seq<Image>, timeOf: string -> int): SearchView
  {
    Refresh(v.(images := images), timeOf)
  }

  /** A page button: only the page changes. */
  function GoToPage(v: SearchView, page: int): SearchView
  {
    v.(currentPage := page)
  }

  /** `currentImages`: the page of results the grid shows. */
  function Displayed(v: SearchView): seq<Image>
  {
    Page(v.results, v.currentPage)
  }

  /** Each input change re-derives the results and returns to page 1; a page change keeps the cache. */
  lemma ChangesResetPage(v: SearchView, timeOf: string -> int, term: string, mode: SearchMode,
                         sortBy: SortBy, images: seq<Image>, page: int)
    requires Consistent(v, timeOf)
    ensures term != v.term ==> SetTerm(v, term, timeOf).currentPage == 1
    ensures mode != v.mode ==> SetMode(v, mode, timeOf).currentPage == 1
    ensures sortBy != v.sortBy ==> SetSortBy(v, sortBy, timeOf).currentPage == 1
    ensures SetImages(v, images, timeOf).currentPage == 1
    ensures Consistent(SetTerm(v, term, timeOf), timeOf)
    ensures Consistent(SetMode(v, mode, timeOf), timeOf)
    ensures Consistent(SetSortBy(v, sortBy, timeOf), timeOf)
    ensures Consistent(SetImages(v, images, timeOf), timeOf)
    ensures Consistent(GoToPage(v, page), timeOf) && GoToPage(v, page).results == v.results
    ensures GoToPage(v, page).currentPage == page
    ensures var w := SetTerm(v, term, timeOf);
      w.term == term && w.mode == v.mode && w.sortBy == v.sortBy && w.images == v.images
    ensures var w := SetMode(v, mode, timeOf);
      w.term == v.term && w.mode == mode && w.sortBy == v.sortBy && w.images == v.images
    ensures var w := SetSortBy(v, sortBy, timeOf);
      w.term == v.term && w.mode == v.mode && w.sortBy == sortBy && w.images == v.images
    ensures var w := SetImages(v, images, timeOf);
      w.term == v.term && w.mode == v.mode && w.sortBy == v.sortBy && w.images == images
    ensures var w := GoToPage(v, page);
      w.term == v.term && w.mode == v.mode && w.sortBy == v.sortBy && w.images == v.images
  {
  }
}
