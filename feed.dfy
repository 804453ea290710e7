/** The feed page: which posts it starts with, which of them it lists for the
    selected category, the statistics bar, the heading and the count line. */
module Feed {
  import opened Text
  import opened Numbers
  import opened Posts
  import opened PostCard
  import Publish

  // ---------------------------------------------------------------------
  // Start-up
  // ---------------------------------------------------------------------

  /** The posts the page starts with: the stored ones when there are any,
      otherwise the sample posts. */
  function InitialPosts(stored: seq<Post>, samples: seq<Post>): (r: seq<Post>)
    ensures r == stored || r == samples
    ensures stored != [] ==> r == stored
    ensures r != [] <==> stored != [] || samples != []
  {
    if |stored| > 0 then stored else samples
  }

  // ---------------------------------------------------------------------
  // Category filter
  // ---------------------------------------------------------------------

  /** The selection that lists every post. */
  const AllCategories := "all"

  /** `posts.filter(post => post.category === c)`. */
  function WithCategory(posts: seq<Post>, c: string): (r: seq<Post>)
    ensures |r| <= |posts|
    ensures forall k | 0 <= k < |r| :: r[k].category == c
  {
    if posts == [] then []
    else (if posts[0].category == c then [posts[0]] else []) + WithCategory(posts[1..], c)
  }

  /** The posts listed for the selected category: all of them for "all",
      else those of that category. */
  function FilterPosts(posts: seq<Post>, selected: string): (r: seq<Post>)
    ensures selected == AllCategories ==> r == posts
    ensures |r| <= |posts|
  {
    if selected == AllCategories then posts else WithCategory(posts, selected)
  }

  /** `xs` is `ys` with some elements left out, the rest in their order. */
  predicate IsSubsequence(xs: seq<Post>, ys: seq<Post>)
    decreases |ys|
  {
    if xs == [] then true
    else if ys == [] then false
    else (xs[0] == ys[0] && IsSubsequence(xs[1..], ys[1..])) || IsSubsequence(xs, ys[1..])
  }

  /** The filter keeps posts in their order and invents none. */
  lemma {:induction false} WithCategoryIsSubsequence(posts: seq<Post>, c: string)
    ensures IsSubsequence(WithCategory(posts, c), posts)
  {
    if posts != [] {
      WithCategoryIsSubsequence(posts[1..], c);
      var r := WithCategory(posts, c);
      if posts[0].category == c {
        assert r[0] == posts[0] && r[1..] == WithCategory(posts[1..], c);
      } else {
        assert r == WithCategory(posts[1..], c);
      }
    }
  }

  /** Every post of the category is kept, as often as it occurs, and no
      post of another category is. */
  lemma {:induction false} WithCategoryCounts(posts: seq<Post>, c: string, p: Post)
    ensures p.category == c ==> multiset(WithCategory(posts, c))[p] == multiset(posts)[p]
    ensures p.category != c ==> multiset(WithCategory(posts, c))[p] == 0
  {
    if posts != [] {
      WithCategoryCounts(posts[1..], c, p);
      assert posts == [posts[0]] + posts[1..];
    }
  }

  /** Filtering the concatenation of two lists filters each in turn. */
  lemma {:induction false} WithCategoryAppend(a: seq<Post>, b: seq<Post>, c: string)
    ensures WithCategory(a + b, c) == WithCategory(a, c) + WithCategory(b, c)
  {
    if a == [] {
      assert a + b == b;
    } else {
      assert (a + b)[0] == a[0];
      assert (a + b)[1..] == a[1..] + b;
      WithCategoryAppend(a[1..], b, c);
    }
  }

  /** Filtering twice by the same category changes nothing more. */
  lemma {:induction false} WithCategoryIdempotent(posts: seq<Post>, c: string)
    ensures WithCategory(WithCategory(posts, c), c) == WithCategory(posts, c)
  {
    if posts != [] {
      WithCategoryIdempotent(posts[1..], c);
      var head := if posts[0].category == c then [posts[0]] else [];
      WithCategoryAppend(head, WithCategory(posts[1..], c), c);
      assert WithCategory(head, c) == head by {
        if head != [] { assert head[1..] == []; }
      }
    }
  }

  /** The same for the page's filter, whatever is selected. */
  lemma FilterPostsIdempotent(posts: seq<Post>, selected: string)
    ensures FilterPosts(FilterPosts(posts, selected), selected) == FilterPosts(posts, selected)
  {
    if selected != AllCategories {
      WithCategoryIdempotent(posts, selected);
    }
  }

  /** Two different categories never list the same post: together they list
      at most all posts. */
  lemma {:induction false} CategoriesDisjoint(posts: seq<Post>, a: string, b: string)
    requires a != b
    ensures |WithCategory(posts, a)| + |WithCategory(posts, b)| <= |posts|
  {
    if posts != [] {
      CategoriesDisjoint(posts[1..], a, b);
    }
  }

  // ---------------------------------------------------------------------
  // Statistics bar
  // ---------------------------------------------------------------------

  /** `Boolean(post.company)`: the post names a company (an empty name does
      not count). */
  predicate NamesCompany(p: Post) {
    p.company.Some? && p.company.value != []
  }

  /** `new Set(posts.map(p => p.company).filter(Boolean))`: the distinct
      non-empty company names. */
  function Companies(posts: seq<Post>): (r: set<string>)
    ensures forall c | c in r :: c != []
    ensures forall k | 0 <= k < |posts| && NamesCompany(posts[k]) :: posts[k].company.value in r
  {
    set k | 0 <= k < |posts| && NamesCompany(posts[k]) :: posts[k].company.value
  }

  /** The companies of two lists together are those of each. */
  lemma CompaniesAppend(a: seq<Post>, b: seq<Post>)
    ensures Companies(a + b) == Companies(a) + Companies(b)
  {
    forall c | c in Companies(a + b) ensures c in Companies(a) + Companies(b) {
      var k :| 0 <= k < |a + b| && NamesCompany((a + b)[k]) && (a + b)[k].company.value == c;
      if k < |a| {
        assert (a + b)[k] == a[k];
      } else {
        assert (a + b)[k] == b[k - |a|];
      }
    }
    forall c | c in Companies(a) ensures c in Companies(a + b) {
      var k :| 0 <= k < |a| && NamesCompany(a[k]) && a[k].company.value == c;
      assert (a + b)[k] == a[k];
    }
    forall c | c in Companies(b) ensures c in Companies(a + b) {
      var k :| 0 <= k < |b| && NamesCompany(b[k]) && b[k].company.value == c;
      assert (a + b)[|a| + k] == b[k];
    }
  }

  /** One post names at most one company. */
  lemma CompaniesOfOne(p: Post)
    ensures NamesCompany(p) ==> Companies([p]) == {p.company.value}
    ensures !NamesCompany(p) ==> Companies([p]) == {}
  {
    if NamesCompany(p) {
      assert [p][0] == p;
    }
  }

  /** There are never more companies covered than posts. */
  lemma {:induction false} CompaniesBound(posts: seq<Post>)
    ensures |Companies(posts)| <= |posts|
  {
    if posts != [] {
      var n := |posts| - 1;
      assert posts == posts[..n] + [posts[n]];
      CompaniesAppend(posts[..n], [posts[n]]);
      CompaniesOfOne(posts[n]);
      CompaniesBound(posts[..n]);
    } else {
      assert Companies(posts) == {};
    }
  }

  /** The counters the statistics bar adds up. */
  datatype Counter = Views | Upvotes

  function CountOf(p: Post, counter: Counter): nat {
    match counter
    case Views => p.views
    case Upvotes => p.upvotes
  }

  /** `posts.reduce((sum, post) => sum + post.<counter>, 0)`, added from the
      first post on. */
  function Total(posts: seq<Post>, counter: Counter): (r: nat)
    ensures forall k | 0 <= k < |posts| :: CountOf(posts[k], counter) <= r
  {
    if posts == [] then 0
    else Total(posts[..|posts| - 1], counter) + CountOf(posts[|posts| - 1], counter)
  }

  /** The total of two lists together is the sum of their totals. */
  lemma {:induction false} TotalAppend(a: seq<Post>, b: seq<Post>, counter: Counter)
    ensures Total(a + b, counter) == Total(a, counter) + Total(b, counter)
    decreases |b|
  {
    if b == [] {
      assert a + b == a;
    } else {
      var n := |b| - 1;
      assert (a + b)[..|a + b| - 1] == a + b[..n];
      TotalAppend(a, b[..n], counter);
    }
  }

  /** The posts of one category never add up to more than all posts. */
  lemma {:induction false} TotalOfCategory(posts: seq<Post>, c: string, counter: Counter)
    ensures Total(WithCategory(posts, c), counter) <= Total(posts, counter)
  {
    if posts != [] {
      var head := if posts[0].category == c then [posts[0]] else [];
      TotalOfCategory(posts[1..], c, counter);
      TotalAppend(head, WithCategory(posts[1..], c), counter);
      TotalAppend([posts[0]], posts[1..], counter);
      assert [posts[0]] + posts[1..] == posts;
      assert Total([posts[0]], counter) == CountOf(posts[0], counter) by {
        assert [posts[0]][..0] == [];
      }
    }
  }

  /** The four figures of the statistics bar, always taken over every post,
      whatever category is selected. */
  datatype Stats = Stats(totalPosts: nat, companies: nat, totalViews: nat, totalUpvotes: nat)

  function StatsOf(posts: seq<Post>): (s: Stats)
    ensures s.totalPosts == |posts|
    ensures s.companies <= s.totalPosts
  {
    CompaniesBound(posts);
    Stats(|posts|, |Companies(posts)|, Total(posts, Views), Total(posts, Upvotes))
  }

  /** Publishing a new post adds one to the post count, at most one to the
      companies covered (none when its company is already covered or it
      names none) and nothing to the views and upvotes. */
  lemma StatsAfterPublish(posts: seq<Post>, p: Post)
    requires Publish.FreshPost(p)
    ensures StatsOf(posts + [p]).totalPosts == StatsOf(posts).totalPosts + 1
    ensures StatsOf(posts + [p]).totalViews == StatsOf(posts).totalViews
    ensures StatsOf(posts + [p]).totalUpvotes == StatsOf(posts).totalUpvotes
    ensures StatsOf(posts + [p]).companies
         == StatsOf(posts).companies + (if NamesCompany(p) && p.company.value !in Companies(posts) then 1 else 0)
    ensures StatsOf([p] + posts) == StatsOf(posts + [p])
  {
    StatsOrderFree([p], posts);
    var ps := posts + [p];
    assert ps[..|ps| - 1] == posts && ps[|ps| - 1] == p;
    CompaniesAppend(posts, [p]);
    CompaniesOfOne(p);
    if NamesCompany(p) && p.company.value !in Companies(posts) {
      assert Companies(ps) == Companies(posts) + {p.company.value};
      assert |Companies(ps)| == |Companies(posts)| + 1;
    } else {
      assert Companies(ps) == Companies(posts);
    }
  }

  /** The statistics do not depend on the order of the posts: listing a new
      post first or last gives the same bar. */
  lemma StatsOrderFree(a: seq<Post>, b: seq<Post>)
    ensures StatsOf(a + b) == StatsOf(b + a)
  {
    CompaniesOrderFree(a, b);
    TotalOrderFree(a, b, Views);
    TotalOrderFree(a, b, Upvotes);
  }

  lemma CompaniesOrderFree(a: seq<Post>, b: seq<Post>)
    ensures Companies(a + b) == Companies(b + a)
  {
    CompaniesAppend(a, b);
    CompaniesAppend(b, a);
  }

  lemma TotalOrderFree(a: seq<Post>, b: seq<Post>, counter: Counter)
    ensures Total(a + b, counter) == Total(b + a, counter)
  {
    TotalAppend(a, b, counter);
    TotalAppend(b, a, counter);
  }

  // ---------------------------------------------------------------------
  // Heading and count line
  // ---------------------------------------------------------------------

  /** The page heading: "Latest Posts" for every category, else the label
      the cards show for the selected category. */
  function Heading(selected: string): (r: string)
    ensures selected == AllCategories ==> r == "Latest Posts"
    ensures selected != AllCategories ==> r == CategoryLabel(selected) && |r| == |selected|
  {
    if selected == AllCategories then "Latest Posts" else CategoryLabel(selected)
  }

  /** The heading of a category id that is a single lower-case word, such
      as "learning", is that word capitalised. */
  lemma HeadingOfWord(a: string)
    requires LowerWord(a) && a != AllCategories
    ensures Heading(a) == Capitalised(a)
  {
    assert '-' !in a;
    UpperWordStartsFromStart(a);
    UpperLowerWord(a);
  }

  /** The heading of a category whose id starts with a lower-case word and
      a hyphen capitalises that word and puts a space after it. */
  lemma HeadingOfCategory(a: string, b: string)
    requires LowerWord(a)
    ensures Heading(a + "-" + b) == Capitalised(a) + " " + UpperWordStarts(b)
  {
    CategoryLabelOfFirstWord(a, b);
    assert a + "-" + b != AllCategories by {
      assert (a + "-" + b)[|a|] == '-';
    }
  }

  /** "N post(s) found", singular exactly for one post. */
  function CountLabel(n: nat): (r: string)
    ensures |r| > |NatToString(n)| + 6 && r[..|NatToString(n)|] == NatToString(n)
    ensures r[|r| - 6..] == " found"
  {
    NatToString(n) + " " + (if n == 1 then "post" else "posts") + " found"
  }

  /** The count reads back from the front of the line. */
  lemma CountLabelReadsBack(n: nat)
    ensures ParseInt(CountLabel(n)) == Int(n)
  {
    var rest := " " + (if n == 1 then "post" else "posts") + " found";
    assert CountLabel(n) == NatToString(n) + rest;
    ParseIntOfNatToStringThen(n, rest);
  }

  /** The line reads "1 post found" for one post and for no other count. */
  lemma CountLabelSingular(n: nat)
    ensures CountLabel(n) == "1 post found" <==> n == 1
  {
    assert CountLabel(1) == "1 post found" by {
      assert NatToString(1) == "1";
    }
    if CountLabel(n) == "1 post found" {
      CountLabelReadsBack(n);
      CountLabelReadsBack(1);
    }
  }

  /** Every count but one ends in " posts found". */
  lemma CountLabelPlural(n: nat)
    requires n != 1
    ensures |CountLabel(n)| > 12 && CountLabel(n)[|CountLabel(n)| - 12..] == " posts found"
  {
    var r := CountLabel(n);
    assert r == NatToString(n) + " posts found";
  }

  // ---------------------------------------------------------------------
  // Badges of published posts
  // ---------------------------------------------------------------------

  /** A post published through the dialog, with a category and difficulty
      picked from its menus, gets coloured badges: its category is never gray,
      and its difficulty badge, shown only when a level was picked, is never
      gray either. */
  lemma PublishedBadgesColoured(f: Publish.FormData, user: User, clock: Publish.Clock)
    requires f.category in Publish.CategoryChoices && f.difficulty in Publish.DifficultyChoices
    requires Publish.BuildPost(f, user, clock).Ok?
    ensures var p := Publish.BuildPost(f, user, clock).value;
      CategoryColor(p.category) != Gray
      && (p.difficulty.Some? ==> DifficultyColor(p.difficulty.value) != Gray)
  {
    var p := Publish.BuildPost(f, user, clock).value;
    assert p.category == f.category && p.difficulty == Publish.OptionalChoice(f.difficulty);
    MenuChoicesColoured(f.category, f.difficulty);
  }

  /** Every category of the dialog's menu has a colour of its own, and so
      has every level of the difficulty menu but its placeholder. */
  lemma MenuChoicesColoured(c: string, d: string)
    ensures c in Publish.CategoryChoices ==> c in CategoryColors
    ensures d in Publish.DifficultyChoices && d != "" ==> d in DifficultyColors
  {
  }
}
