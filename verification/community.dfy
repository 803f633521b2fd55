/** The community feed: the search over the sample posts, the type badge text, the star
    row of reviews and which optional rows a post card shows. */
module Community {

  import opened Js
  import Seqs
  import Text

  /** A feed post with the fields the card reads. */
  datatype Post = Post(
    id: string, postType: string, title: string, content: string, author: string,
    category: string, rating: Option<int>, date: Option<string>, likes: nat, comments: nat)

  /** The lower-cased query occurs in the lower-cased title or the lower-cased content. */
  predicate MatchesSearch(p: Post, searchQuery: string)
  {
    Text.Contains(Text.Lower(p.title), Text.Lower(searchQuery))
    || Text.Contains(Text.Lower(p.content), Text.Lower(searchQuery))
  }

  function PostTest(searchQuery: string): Post -> bool
  {
    (p: Post) => MatchesSearch(p, searchQuery)
  }

  /** `filteredPosts`: the matching posts, in feed order. */
  function FilteredPosts(posts: seq<Post>, searchQuery: string): (r: seq<Post>)
    ensures forall p :: p in r <==> p in posts && MatchesSearch(p, searchQuery)
    ensures Seqs.IsSubsequence(r, posts)
  {
    Seqs.FilterIsSubsequence(posts, PostTest(searchQuery));
    Seqs.Filter(posts, PostTest(searchQuery))
  }

  /** An empty search shows the whole feed in order. */
  lemma {:induction false} EmptySearchShowsAll(posts: seq<Post>)
    ensures FilteredPosts(posts, "") == posts
  {
    forall p | p in posts ensures PostTest("")(p) {
      Text.EmptyContained(Text.Lower(p.title));
    }
    Seqs.FilterAll(posts, PostTest(""));
  }

  /** The search ignores the case of the query. */
  lemma QueryCaseIgnored(posts: seq<Post>, searchQuery: string)
    ensures FilteredPosts(posts, Text.Lower(searchQuery)) == FilteredPosts(posts, searchQuery)
  {
    Text.LowerIdempotent(searchQuery);
    Seqs.FilterSame(posts, PostTest(Text.Lower(searchQuery)), PostTest(searchQuery));
  }

  /** `charAt(0).toUpperCase() + slice(1)`: the first character upper-cased, the rest as is. */
  function Capitalized(s: string): (r: string)
    ensures |r| == |s|
    ensures s != [] ==> r[0] == Text.UpperChar(s[0]) && r[1..] == s[1..]
  {
    if s == [] then [] else [Text.UpperChar(s[0])] + s[1..]
  }

  /** Lower-casing a badge gives back the lower-case type it was made from. */
  lemma {:induction false} CapitalizedLowersBack(s: string)
    requires Text.Lower(s) == s
    ensures Text.Lower(Capitalized(s)) == s
  {
    if s != [] {
      var r := Capitalized(s);
      forall i | 0 <= i < |s| ensures Text.Lower(r)[i] == s[i] {
        if i == 0 {
          assert Text.LowerChar(s[0]) == s[0];
        } else {
          assert r[i] == s[i];
          assert Text.Lower(s)[i] == s[i];
        }
      }
    }
  }

  /** The rating row is shown only for a review whose rating is set and non-zero. */
  predicate ShowsRating(p: Post): (r: bool)
    ensures r <==> p.postType == "review" && IntOr(p.rating, 0) != 0
  {
    p.postType == "review" && p.rating.Some? && p.rating.value != 0
  }

  /** The event row is shown only for an event with a non-empty date. */
  predicate ShowsEventDate(p: Post): (r: bool)
    ensures r <==> p.postType == "event" && StrOr(p.date, "") != ""
  {
    p.postType == "event" && StrTruthy(p.date)
  }

  /** The five stars of a rating: star `i` is filled exactly when `i < rating`. */
  function Stars(rating: int): (r: seq<bool>)
    ensures |r| == 5
    ensures forall i :: 0 <= i < 5 ==> (r[i] <==> i < rating)
  {
    seq(5, i => i < rating)
  }

  /** How many entries of a row are `true`. */
  function CountFilled(stars: seq<bool>): nat
  {
    if stars == [] then 0 else CountFilled(stars[..|stars| - 1]) + (if stars[|stars| - 1] then 1 else 0)
  }

  /** Among the first `n` stars, `min(max(rating, 0), n)` are filled. */
  lemma {:induction false} FilledPrefix(rating: int, n: nat)
    ensures CountFilled(seq(n, i => i < rating)) == if rating <= 0 then 0 else if rating < n then rating else n
  {
    if n > 0 {
      FilledPrefix(rating, n - 1);
      assert seq(n, i => i < rating)[..n - 1] == seq(n - 1, i => i < rating);
    }
  }

  /** A rating from 0 to 5 fills exactly that many stars; above 5 all five are filled, and
      a negative rating fills none. */
  lemma FilledStarsMatchRating(rating: int)
    ensures CountFilled(Stars(rating)) == if rating <= 0 then 0 else if rating < 5 then rating else 5
  {
    FilledPrefix(rating, 5);
  }
}
