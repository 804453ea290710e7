/** The publish dialog: the form's fields, the validation and construction of
    a new post from them, and the dialog's state as its handlers change it. */
module Publish {
  import opened Wrappers
  import opened Text
  import opened Numbers
  import opened Posts

  /** The raw values of the form's inputs. */
  datatype FormData = FormData(
    title: string,
    content: string,
    category: string,
    tags: string,
    company: string,
    role: string,
    difficulty: string,
    salaryMin: string,
    salaryMax: string,
    isAnonymous: bool)

  /** What the form holds when the dialog opens, and what a reset restores. */
  const InitialForm := FormData("", "", "interview-experience", "", "", "", "", "", "", false)

  /** The category ids the category menu offers, in its order. */
  const CategoryChoices := ["interview-experience", "preparation-tips", "company-culture",
                            "career-thoughts", "qa-format", "learning"]

  /** The values the difficulty menu offers; `""` is its "Select Difficulty"
      placeholder. */
  const DifficultyChoices := ["", "Easy", "Medium", "Hard"]

  /** The inputs that hold text (every input but the anonymity checkbox). */
  datatype TextField =
    Title | Content | Category | Tags | Company | Role | Difficulty | SalaryMin | SalaryMax

  function TextOf(f: FormData, field: TextField): string {
    match field
    case Title => f.title
    case Content => f.content
    case Category => f.category
    case Tags => f.tags
    case Company => f.company
    case Role => f.role
    case Difficulty => f.difficulty
    case SalaryMin => f.salaryMin
    case SalaryMax => f.salaryMax
  }

  /** A change event: text typed into (or an option picked in) a named input,
      or the anonymity checkbox toggled. */
  datatype InputEvent = Typed(field: TextField, value: string) | Toggled(checked: bool)

  /** The form after `handleInputChange`: the named input takes the event's
      value (the checkbox its `checked` flag) and nothing else changes. */
  function ApplyInput(f: FormData, e: InputEvent): (r: FormData)
    ensures e.Typed? ==> TextOf(r, e.field) == e.value && r.isAnonymous == f.isAnonymous
    ensures e.Typed? ==> forall g: TextField | g != e.field :: TextOf(r, g) == TextOf(f, g)
    ensures e.Toggled? ==> r.isAnonymous == e.checked
    ensures e.Toggled? ==> forall g: TextField :: TextOf(r, g) == TextOf(f, g)
  {
    match e
    case Toggled(checked) => f.(isAnonymous := checked)
    case Typed(field, v) =>
      match field
      case Title => f.(title := v)
      case Content => f.(content := v)
      case Category => f.(category := v)
      case Tags => f.(tags := v)
      case Company => f.(company := v)
      case Role => f.(role := v)
      case Difficulty => f.(difficulty := v)
      case SalaryMin => f.(salaryMin := v)
      case SalaryMax => f.(salaryMax := v)
  }

  /** The reasons `handleSubmit` refuses a form, in the order it checks them. */
  datatype PublishError = TitleRequired | ContentRequired

  /** The message shown for each refusal. */
  function Message(e: PublishError): (r: string)
    ensures |r| > 12 && r[|r| - 12..] == " is required"
    ensures e == TitleRequired <==> r[0] == 'T'
  {
    match e
    case TitleRequired => "Title is required"
    case ContentRequired => "Content is required"
  }

  /** Characters of trimmed content kept in the excerpt. */
  const ExcerptLength := 200

  /** `e` is a prefix of `c`, at most 200 characters long, followed by an
      ellipsis. */
  predicate IsExcerptOf(e: string, c: string) {
    && 3 <= |e| <= ExcerptLength + 3 && |e| - 3 <= |c|
    && e[..|e| - 3] == c[..|e| - 3]
    && e[|e| - 3..] == "..."
  }

  /** `content.substring(0, 200) + '...'`: the first 200 characters (all of
      them when there are fewer) followed by an ellipsis, which is added even
      when nothing was cut. */
  function Excerpt(content: string): (r: string)
    ensures |r| == (if |content| < ExcerptLength then |content| else ExcerptLength) + 3
    ensures IsExcerptOf(r, content)
  {
    content[..if |content| < ExcerptLength then |content| else ExcerptLength] + "..."
  }

  /** Trimming never brings in a character the string did not have. */
  lemma TrimKeepsOut(s: string, c: char)
    ensures c !in s ==> c !in Trim(s)
  {
    var r := Trim(s);
    assert r == s[TrimOffset(s)..TrimOffset(s) + |r|];
  }

  /** Every piece trimmed, in order (`map(tag => tag.trim())`). */
  function TrimAll(pieces: seq<string>): (r: seq<string>)
    ensures |r| == |pieces|
    ensures forall k | 0 <= k < |r| :: r[k] == Trim(pieces[k]) && IsTrimmed(r[k])
    ensures (forall k | 0 <= k < |pieces| :: ',' !in pieces[k]) ==> forall k | 0 <= k < |r| :: ',' !in r[k]
  {
    if pieces == [] then []
    else
      TrimKeepsOut(pieces[0], ',');
      [Trim(pieces[0])] + TrimAll(pieces[1..])
  }

  lemma {:induction false} TrimAllAppend(a: seq<string>, b: seq<string>)
    ensures TrimAll(a + b) == TrimAll(a) + TrimAll(b)
  {
    if a == [] {
      assert a + b == b;
    } else {
      assert (a + b)[1..] == a[1..] + b;
      TrimAllAppend(a[1..], b);
    }
  }

  /** Pieces that are already trimmed are left as they are. */
  lemma {:induction false} TrimAllOfTrimmed(xs: seq<string>)
    requires forall k | 0 <= k < |xs| :: IsTrimmed(xs[k])
    ensures TrimAll(xs) == xs
  {
    if xs != [] {
      TrimOfTrimmed(xs[0]);
      TrimAllOfTrimmed(xs[1..]);
    }
  }

  /** A tag as the form stores it: non-empty, no whitespace at either end, no comma. */
  predicate CleanTag(t: string) {
    t != [] && IsTrimmed(t) && ',' !in t
  }

  /** `filter(tag => tag)`: the non-empty strings, in their original order. */
  function DropEmpty(xs: seq<string>): (r: seq<string>)
    ensures |r| <= |xs|
    ensures forall k | 0 <= k < |r| :: r[k] != []
    ensures (forall k | 0 <= k < |xs| :: IsTrimmed(xs[k]) && ',' !in xs[k]) ==> forall k | 0 <= k < |r| :: CleanTag(r[k])
    ensures (forall k | 0 <= k < |xs| :: xs[k] != []) ==> r == xs
    ensures (forall k | 0 <= k < |xs| :: xs[k] == []) ==> r == []
  {
    if xs == [] then []
    else if xs[0] == [] then DropEmpty(xs[1..])
    else [xs[0]] + DropEmpty(xs[1..])
  }

  lemma {:induction false} DropEmptyAppend(a: seq<string>, b: seq<string>)
    ensures DropEmpty(a + b) == DropEmpty(a) + DropEmpty(b)
  {
    if a != [] {
      assert (a + b)[1..] == a[1..] + b;
      DropEmptyAppend(a[1..], b);
    } else {
      assert a + b == b;
    }
  }

  /** `tags.split(',').map(tag => tag.trim()).filter(tag => tag)`: every tag
      is non-empty, holds no comma and has no whitespace at either end. */
  function ParseTags(s: string): (r: seq<string>)
    ensures forall k | 0 <= k < |r| :: CleanTag(r[k])
  {
    DropEmpty(TrimAll(Split(s, ',')))
  }

  /** Tags written out comma-separated parse back to themselves: no tag is
      lost, added, altered or reordered. */
  lemma ParseTagsOfJoin(tags: seq<string>)
    requires forall k | 0 <= k < |tags| :: CleanTag(tags[k])
    ensures ParseTags(Join(tags, ',')) == tags
  {
    if tags == [] {
      assert Split([], ',') == [[]];
      assert TrimAll([[]]) == [[]];
    } else {
      SplitJoin(tags, ',');
      TrimAllOfTrimmed(tags);
    }
  }

  /** Text on either side of a comma contributes its own tags, those before
      the comma first. */
  lemma ParseTagsAround(a: string, b: string)
    ensures ParseTags(a + "," + b) == ParseTags(a) + ParseTags(b)
  {
    SplitAround(a, b, ',');
    assert a + "," + b == a + [','] + b;
    var pa, pb := Split(a, ','), Split(b, ',');
    TrimAllAppend(pa, pb);
    DropEmptyAppend(TrimAll(pa), TrimAll(pb));
  }

  /** Every character of a piece occurs in the joined string. */
  lemma {:induction false} PieceCharsInJoin(parts: seq<string>, sep: char, k: nat, j: nat)
    requires k < |parts| && j < |parts[k]|
    ensures parts[k][j] in Join(parts, sep)
  {
    if |parts| > 1 {
      if k == 0 {
        assert Join(parts, sep)[j] == parts[0][j];
      } else {
        PieceCharsInJoin(parts[1..], sep, k - 1, j);
        var rest := Join(parts[1..], sep);
        var i :| 0 <= i < |rest| && rest[i] == parts[k][j];
        assert Join(parts, sep)[|parts[0]| + 1 + i] == rest[i];
      }
    }
  }

  /** Input made only of commas and whitespace (the empty input included)
      yields no tags. */
  lemma ParseTagsBlank(s: string)
    requires forall k | 0 <= k < |s| :: s[k] == ',' || IsSpace(s[k])
    ensures ParseTags(s) == []
  {
    var pieces := Split(s, ',');
    forall k | 0 <= k < |pieces| ensures Trim(pieces[k]) == [] {
      forall j | 0 <= j < |pieces[k]| ensures IsSpace(pieces[k][j]) {
        PieceCharsInJoin(pieces, ',', k, j);
      }
      TrimEmptyIffAllSpace(pieces[k]);
    }
  }

  /** `value.trim() || undefined`: the trimmed text, or absent when nothing
      but whitespace was entered. */
  function OptionalText(s: string): (r: Option<string>)
    ensures r.None? <==> AllSpace(s)
    ensures r.Some? ==> r.value == Trim(s) && r.value != [] && IsTrimmed(r.value)
  {
    TrimEmptyIffAllSpace(s);
    if Trim(s) == [] then None else Some(Trim(s))
  }

  /** `difficulty || undefined`: absent exactly when no level was picked. */
  function OptionalChoice(s: string): (r: Option<string>)
    ensures r.None? <==> s == []
    ensures r.Some? ==> r.value == s
  {
    if s == [] then None else Some(s)
  }

  /** `n * 100000` on a JavaScript number: NaN stays NaN. */
  function LakhsToRupees(n: Num): (r: Num)
    ensures r.NaN? <==> n.NaN?
    ensures n.Int? ==> r.value == n.value * RupeesPerLakh
  {
    match n
    case Int(v) => Int(v * RupeesPerLakh)
    case NaN => NaN
  }

  /** The salary range, entered in lakhs: present only when both bounds were
      entered, then each bound parsed and converted to rupees, in INR. */
  function ParseSalary(minText: string, maxText: string): (r: Option<Salary>)
    ensures r.Some? <==> minText != [] && maxText != []
    ensures r.Some? ==> r.value.currency == "INR"
  {
    if minText != [] && maxText != [] then
      Some(Salary(LakhsToRupees(ParseInt(minText)), LakhsToRupees(ParseInt(maxText)), "INR"))
    else None
  }

  /** Bounds typed as plain digits become that many lakhs of rupees. */
  lemma ParseSalaryOfDigits(minText: string, maxText: string)
    requires minText != [] && AllDigitsIn(minText, 10)
    requires maxText != [] && AllDigitsIn(maxText, 10)
    ensures ParseSalary(minText, maxText)
         == Some(Salary(Int(ValueIn(minText, 10) * 100000), Int(ValueIn(maxText, 10) * 100000), "INR"))
  {
    ParseIntOfDigits(minText);
    ParseIntOfDigits(maxText);
  }

  const AnonymousName := "Anonymous User"

  /** `{...user, name: 'Anonymous User', avatar: undefined}`. */
  function Anonymize(u: User): (r: User)
    ensures r.name == AnonymousName && r.avatar.None?
    ensures r.id == u.id && r.email == u.email && r.bio == u.bio && r.company == u.company
    ensures r.role == u.role && r.experience == u.experience && r.skills == u.skills
    ensures r.joinedAt == u.joinedAt && r.followers == u.followers
    ensures r.following == u.following && r.posts == u.posts
  {
    u.(name := AnonymousName, avatar := None)
  }

  /** The three clock readings taken while a post is built: `Date.now()` for
      the id, then `new Date()` for each of the two timestamps. */
  datatype Clock = Clock(idMillis: int, publishedAt: int, updatedAt: int)

  /** The two timestamps of a clock that did not run backwards between
      them. */
  predicate InOrder(c: Clock) {
    c.publishedAt <= c.updatedAt
  }

  /** `handleSubmit`'s checks, in order: a title that trims to nothing is
      reported first, whatever the content; then a content that trims to
      nothing. A string trims to nothing exactly when it is all whitespace
      (TrimEmptyIffAllSpace), which is how the checks are written here;
      ValidationOrder states them in terms of `Trim`. */
  function Validate(f: FormData): (r: Option<PublishError>)
    ensures r.None? <==> !AllSpace(f.title) && !AllSpace(f.content)
    ensures r == Some(TitleRequired) <==> AllSpace(f.title)
    ensures r == Some(ContentRequired) ==> !AllSpace(f.title)
  {
    if AllSpace(f.title) then Some(TitleRequired)
    else if AllSpace(f.content) then Some(ContentRequired)
    else None
  }

  /** The record `handleSubmit` builds from a form that passed validation. */
  function NewPost(f: FormData, user: User, clock: Clock): (p: Post)
    ensures IsTrimmed(p.title) && IsTrimmed(p.content) && IsExcerptOf(p.excerpt, p.content)
    ensures forall k | 0 <= k < |p.tags| :: CleanTag(p.tags[k])
    ensures p.upvotes == 0 && p.downvotes == 0 && p.comments == 0 && p.bookmarks == 0 && p.views == 0
    ensures p.author.id == user.id && p.isAnonymous == f.isAnonymous
  {
    Post(
      id := "post_" + IntToString(clock.idMillis),
      title := Trim(f.title),
      content := Trim(f.content),
      excerpt := Excerpt(Trim(f.content)),
      author := if f.isAnonymous then Anonymize(user) else user,
      category := f.category,
      tags := ParseTags(f.tags),
      company := OptionalText(f.company),
      role := OptionalText(f.role),
      difficulty := OptionalChoice(f.difficulty),
      salary := ParseSalary(f.salaryMin, f.salaryMax),
      upvotes := 0,
      downvotes := 0,
      comments := 0,
      bookmarks := 0,
      views := 0,
      publishedAt := clock.publishedAt,
      updatedAt := clock.updatedAt,
      isAnonymous := f.isAnonymous)
  }

  /** The outcome of `handleSubmit`'s try block: the validation message, or
      the new post. */
  function BuildPost(f: FormData, user: User, clock: Clock): (r: Result<Post, PublishError>)
    ensures r.Ok? <==> Validate(f).None?
    ensures r.Err? ==> r.error == Validate(f).value
    ensures r.Ok? ==> r.value.publishedAt == clock.publishedAt && r.value.updatedAt == clock.updatedAt
  {
    match Validate(f)
    case Some(e) => Err(e)
    case None => Ok(NewPost(f, user, clock))
  }

  /** Validation order: a blank title is reported whatever the content; a
      blank content is reported only once the title is present; a post is
      built exactly when both are present. */
  lemma ValidationOrder(f: FormData, user: User, clock: Clock)
    ensures Trim(f.title) == [] ==> BuildPost(f, user, clock) == Err(TitleRequired)
    ensures Trim(f.title) != [] && Trim(f.content) == [] ==> BuildPost(f, user, clock) == Err(ContentRequired)
    ensures BuildPost(f, user, clock).Ok? <==> Trim(f.title) != [] && Trim(f.content) != []
  {
    TrimEmptyIffAllSpace(f.title);
    TrimEmptyIffAllSpace(f.content);
  }

  /** A well-formed new post: non-empty trimmed title and content, an excerpt
      that is a prefix of the content plus an ellipsis, clean tags, and no
      engagement yet. */
  predicate FreshPost(p: Post) {
    && p.title != [] && IsTrimmed(p.title)
    && p.content != [] && IsTrimmed(p.content)
    && IsExcerptOf(p.excerpt, p.content)
    && (forall k | 0 <= k < |p.tags| :: CleanTag(p.tags[k]))
    && (p.company.Some? ==> p.company.value != [] && IsTrimmed(p.company.value))
    && (p.role.Some? ==> p.role.value != [] && IsTrimmed(p.role.value))
    && p.upvotes == 0 && p.downvotes == 0 && p.comments == 0 && p.bookmarks == 0 && p.views == 0
  }

  /** Whatever the form holds, a post that passes validation is well formed,
      and every field comes from the form, the signed-in member or the clock:
      the trimmed title and content and the excerpt of that content, the
      member as is or masked, the tags, company, role, difficulty and salary
      read from their inputs, the picked category and the anonymity flag.
      Its update time is no earlier than its publication only when the
      clock did not run backwards between the two readings. */
  lemma BuiltPostIsFresh(f: FormData, user: User, clock: Clock)
    requires BuildPost(f, user, clock).Ok?
    ensures var p := BuildPost(f, user, clock).value;
      && FreshPost(p)
      && p.title == Trim(f.title) && p.content == Trim(f.content)
      && p.excerpt == Excerpt(p.content)
      && p.author == (if f.isAnonymous then Anonymize(user) else user)
      && p.author.name == (if f.isAnonymous then AnonymousName else user.name)
      && p.isAnonymous == f.isAnonymous
    ensures var p := BuildPost(f, user, clock).value;
      && p.category == f.category
      && p.tags == ParseTags(f.tags)
      && p.company == OptionalText(f.company) && p.role == OptionalText(f.role)
      && p.difficulty == OptionalChoice(f.difficulty)
      && p.salary == ParseSalary(f.salaryMin, f.salaryMax)
    ensures InOrder(clock) ==> BuildPost(f, user, clock).value.publishedAt <= BuildPost(f, user, clock).value.updatedAt
  {
    TrimEmptyIffAllSpace(f.title);
    TrimEmptyIffAllSpace(f.content);
    var p := NewPost(f, user, clock);
    assert BuildPost(f, user, clock) == Ok(p);
    assert p.excerpt == Excerpt(p.content);
  }

  /** The dialog: its form, its status flags and error message, the posts it
      has handed to the feed's store (`RealtimeService.addPost`), and how many
      times it asked its parent to close it (`onClose`). */
  class PublishForm {
    var form: FormData
    var isPreview: bool
    var isPublishing: bool
    var publishSuccess: bool
    var error: string
    var submitted: seq<Post>
    var closeRequests: nat

    constructor ()
      ensures form == InitialForm && error == ""
      ensures !isPreview && !isPublishing && !publishSuccess
      ensures submitted == [] && closeRequests == 0
    {
      form := InitialForm;
      isPreview, isPublishing, publishSuccess := false, false, false;
      error := "";
      submitted := [];
      closeRequests := 0;
    }

    /** The Preview/Edit button. */
    method TogglePreview()
      modifies this`isPreview
      ensures isPreview == !old(isPreview)
    {
      isPreview := !isPreview;
    }

    /** `handleInputChange`: store the input's new value and clear any error. */
    method HandleInputChange(e: InputEvent)
      modifies this`form, this`error
      ensures form == ApplyInput(old(form), e)
      ensures error == ""
    {
      form := ApplyInput(form, e);
      if error != "" {
        error := "";
      }
    }

    /** `handleSubmit`: on a validation failure the message is shown and no
      post is handed on; otherwise the post built from the form is handed to
      the store and the success screen is shown. Either way the dialog is no
      longer publishing afterwards. */
    method HandleSubmit(user: User, clock: Clock)
      modifies this`isPublishing, this`error, this`submitted, this`publishSuccess
      ensures !isPublishing
      ensures Validate(form).Some? ==>
        error == Message(Validate(form).value) && submitted == old(submitted) && publishSuccess == old(publishSuccess)
      ensures Validate(form).None? ==>
        error == "" && submitted == old(submitted) + [NewPost(form, user, clock)] && publishSuccess
    {
      isPublishing := true;
      var problem := Validate(form);
      error := if problem.Some? then Message(problem.value) else "";
      submitted := if problem.Some? then submitted else submitted + [NewPost(form, user, clock)];
      publishSuccess := problem.None? || publishSuccess;
      isPublishing := false;
    }

    /** The timer that follows a successful publish: ask the parent to close
      the dialog, leave the success screen, reset the form and leave preview. */
    method FinishPublish()
      modifies this`closeRequests, this`publishSuccess, this`form, this`isPreview
      ensures closeRequests == old(closeRequests) + 1
      ensures !publishSuccess && !isPreview
      ensures form == InitialForm
    {
      closeRequests := closeRequests + 1;
      publishSuccess := false;
      form := InitialForm;
      isPreview := false;
    }
  }
}
