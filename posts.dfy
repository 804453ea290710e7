/** The feed's records: the signed-in member, a post and its salary range, and
    the four kinds of engagement a reader can register on a post. */
module Posts {
  import opened Wrappers
  import opened Numbers

  /** A member as the authentication context keeps it (`joinedAt` in
      milliseconds since the epoch). */
  datatype User = User(
    id: string,
    name: string,
    email: string,
    avatar: Option<string>,
    bio: Option<string>,
    company: Option<string>,
    role: Option<string>,
    experience: Option<string>,
    skills: seq<string>,
    joinedAt: int,
    followers: nat,
    following: nat,
    posts: nat)

  /** Rupees in one lakh and in one crore, the units salaries are entered
      and shown in. */
  const RupeesPerLakh := 100000
  const RupeesPerCrore := 10000000

  /** A salary range in rupees; a bound that did not parse is NaN. */
  datatype Salary = Salary(min: Num, max: Num, currency: string)

  datatype EngagementKind = Upvote | Downvote | Comment | Bookmark

  /** A feed post. Timestamps are milliseconds since the epoch; an absent
      optional field is `None` (`undefined` in the source). */
  datatype Post = Post(
    id: string,
    title: string,
    content: string,
    excerpt: string,
    author: User,
    category: string,
    tags: seq<string>,
    company: Option<string>,
    role: Option<string>,
    difficulty: Option<string>,
    salary: Option<Salary>,
    upvotes: nat,
    downvotes: nat,
    comments: nat,
    bookmarks: nat,
    views: nat,
    publishedAt: int,
    updatedAt: int,
    isAnonymous: bool)
}
