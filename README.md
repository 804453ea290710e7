# A verified model of the feed app's core

The feed app lets signed-in members publish posts about interviews,
preparation and careers, and shows every post as a card. This project models
the app's core logic in Dafny and proves properties about it. The core comes
from three parts of the app.

- **The publish dialog** (`src/components/PublishModal.tsx`). The dialog turns
  the raw form strings into a post. It checks that the trimmed title and
  content are present, in that order. It trims text, and cuts the excerpt
  from the content, always adding an ellipsis. Tags are split on commas,
  trimmed, and empty tags dropped. Blank optional fields become absent. The
  salary is converted from lakhs to rupees. Engagement counters start at
  zero, and an anonymous author is masked. The dialog's own state (form,
  preview, publishing, success, error) is a class whose methods are the
  dialog's handlers.
- **The post card** (`src/components/PostCard.tsx`). It covers:
  - bucketing a post's age into "Just now", hours, days or weeks;
  - choosing a salary's unit (crore, lakh or plain);
  - the category and difficulty badge colours, with a gray default;
  - the category label, where only the first hyphen becomes a space and
    every word start is upper-cased;
  - showing four tags plus a "+N more" marker;
  - the engagement buttons.
- **The feed page** (`src/App.tsx`). It picks stored or sample posts at
  start-up and filters by category, where "all" lists everything. It
  computes the statistics bar: post count, distinct companies, total views
  and total upvotes. It also builds the heading and the "N post(s) found"
  line.

## How the model is organised

The JavaScript behaviour the core relies on is modelled exactly for the
inputs the app produces:

- `text.dfy` (module `Text`) models `trim`, with the whole ECMAScript
  whitespace and line-terminator set. It also models `split` on one
  character with its inverse `join`, `replace` of the first occurrence of a
  character, and the `/\b\w/g` upper-casing of word starts.
- `numbers.dfy` (module `Numbers`) models `String(n)` for integers and NaN.
  It also models `parseInt` without a radix: leading whitespace, a sign, a
  `0x` prefix, stopping at the first non-digit, and NaN when there are no
  digits.

Module by file:

- `posts.dfy` (`Posts`): the records `User`, `Salary` and `Post`, and the
  units of salaries.
- `publish.dfy` (`Publish`): the dialog.
- `postcard.dfy` (`PostCard`): the card helpers.
- `feed.dfy` (`Feed`): the page.

The clock readings (`Date.now()` for the id, then `new Date()` twice) are a
`Clock` value passed in. The formatting of `toFixed(1)` is a function
parameter `fixed1`. The feed's store is modelled only as the list of posts
the dialog has handed to it.

## Model

| member | source | states |
|---|---|---|
| `Text.Trim` | src/components/PublishModal.tsx:67-68 | `trim()` gives an infix of the input with no whitespace at either end |
| `Text.TrimMargins` | src/components/PublishModal.tsx:67-68 | everything `trim()` removes, before and after the result, is whitespace |
| `Text.TrimEmptyIffAllSpace` | src/components/PublishModal.tsx:57-62 | a string trims to the empty string exactly when it is all whitespace, so `!s.trim()` tests for a blank field |
| `Text.TrimIdempotent` | src/components/PublishModal.tsx:76 | trimming an already trimmed string changes nothing |
| `Text.Split` | src/components/PublishModal.tsx:76 | `split(',')` gives at least one piece, no piece holds a comma, and joining the pieces with commas gives the input back |
| `Text.SplitJoin` | src/components/PublishModal.tsx:76 | splitting the comma-join of comma-free pieces gives exactly those pieces |
| `Text.SplitAround` | src/components/PublishModal.tsx:76 | the pieces of `a + ',' + b` are the pieces of `a` followed by those of `b` |
| `Text.ReplaceFirst` | src/components/PostCard.tsx:139 | `replace('-', ' ')` changes only the first hyphen and keeps the length; a string without a hyphen is unchanged |
| `Text.UpperWordStarts` | src/components/PostCard.tsx:139 | the `/\b\w/g` rewrite upper-cases exactly the word characters that follow a non-word character or the start, and keeps every other character |
| `Text.UpperWordStartsSplit` | src/App.tsx:68 | word starts in a concatenation are found piece by piece, each piece knowing how the previous one ended |
| `Numbers.NatToString` | src/components/PostCard.tsx:58-60 | `String(n)` is a non-empty decimal numeral with no leading zero |
| `Numbers.ValueOfNatToString` | src/components/PostCard.tsx:58-60 | the printed numeral of `n` has value `n` |
| `Numbers.NatToStringInjective` | src/components/PostCard.tsx:58-60 | different numbers print differently |
| `Numbers.IntToString` | src/components/PublishModal.tsx:66 | a negative integer prints as `-` and the numeral of its magnitude |
| `Numbers.NumToString` | src/components/PostCard.tsx:26 | `toString()` gives "NaN" exactly for NaN |
| `Numbers.ParseMagnitude` | src/components/PublishModal.tsx:81-82 | the unsigned part of `parseInt` finds a number exactly when a digit of the right base follows the optional `0x` prefix |
| `Numbers.ParseInt` | src/components/PublishModal.tsx:81-82 | `parseInt` is NaN exactly when no digit follows the skipped whitespace and optional sign |
| `Numbers.ParseIntOfDigits` | src/components/PublishModal.tsx:81-82 | a string of decimal digits parses to its decimal value |
| `Numbers.ParseIntOfIntToString` | src/components/PublishModal.tsx:81-82 | `parseInt(String(i)) === i` for every integer |
| `Numbers.ParseIntOfIntToStringThen` | src/components/PostCard.tsx:58-60 | `parseInt` reads a printed integer back from the front of any text in which a non-digit follows it |
| `Numbers.ParseIntOfNumToStringThen` | src/components/PostCard.tsx:26-29 | the same for NaN, which reads back as NaN |
| `Publish.ApplyInput` | src/components/PublishModal.tsx:130-137 | a change event sets only the named field, to the typed value or the checkbox's flag; every other field is unchanged |
| `Publish.PublishForm.constructor` | src/components/PublishModal.tsx:14-29 | the dialog opens with the initial form, no error, and no preview, publishing or success |
| `Publish.PublishForm.HandleInputChange` | src/components/PublishModal.tsx:130-138 | the form becomes `ApplyInput` of the old form and any error is cleared |
| `Publish.PublishForm.TogglePreview` | src/components/PublishModal.tsx:164 | the Preview/Edit button flips the preview flag |
| `Publish.PublishForm.HandleSubmit` | src/components/PublishModal.tsx:50-127 | a refused form shows its message and hands on no post; an accepted form hands exactly the post built from it to the store and shows success; publishing is over afterwards |
| `Publish.PublishForm.FinishPublish` | src/components/PublishModal.tsx:104-121 | after success the dialog asks to close once, leaves success and preview, and restores the initial form |
| `Publish.Message` | src/components/PublishModal.tsx:58-61 | each refusal message ends " is required", and only the title's starts with its name |
| `Publish.Validate` | src/components/PublishModal.tsx:57-62 | a form passes exactly when neither title nor content is all whitespace; a blank title is reported in preference to a blank content |
| `Publish.ValidationOrder` | src/components/PublishModal.tsx:57-62 | a blank title is reported first whatever the content; a blank content only after a present title; a post is built exactly when both are present |
| `Publish.Excerpt` | src/components/PublishModal.tsx:69 | the excerpt is the first min(200, length) characters of the content followed by "...", which is added even when nothing was cut |
| `Publish.TrimAll` | src/components/PublishModal.tsx:76 | every piece is trimmed in place, and comma-free pieces stay comma-free |
| `Publish.DropEmpty` | src/components/PublishModal.tsx:76 | `filter(tag => tag)` keeps the non-empty pieces; it keeps everything when none is empty and nothing when all are |
| `Publish.ParseTags` | src/components/PublishModal.tsx:76 | every parsed tag is non-empty, comma-free and trimmed |
| `Publish.ParseTagsOfJoin` | src/components/PublishModal.tsx:76 | clean tags written comma-separated parse back to exactly those tags, in order |
| `Publish.ParseTagsAround` | src/components/PublishModal.tsx:76 | the text before a comma contributes its tags first, then the text after it |
| `Publish.ParseTagsBlank` | src/components/PublishModal.tsx:76 | an empty input, or one of only commas and whitespace, gives no tags |
| `Publish.OptionalText` | src/components/PublishModal.tsx:77-78 | company and role are absent exactly when blank, otherwise the non-empty trimmed text |
| `Publish.OptionalChoice` | src/components/PublishModal.tsx:79 | difficulty is absent exactly when no level was picked |
| `Publish.LakhsToRupees` | src/components/PublishModal.tsx:81-82 | a number of lakhs becomes 100000 times as many rupees, and NaN stays NaN |
| `Publish.ParseSalary` | src/components/PublishModal.tsx:80-84 | a salary is present exactly when both bounds were entered, and its currency is INR |
| `Publish.ParseSalaryOfDigits` | src/components/PublishModal.tsx:80-84 | bounds typed as digits become their value times 100000 |
| `Publish.Anonymize` | src/components/PublishModal.tsx:70-74 | the anonymous author is named "Anonymous User" and has no avatar; every other field of the member is kept |
| `Publish.BuiltPostIsFresh` | src/components/PublishModal.tsx:65-93 | an accepted post has the trimmed title and content, exactly the excerpt of its content, the member unchanged or masked as the anonymity flag says, the parsed tags, company, role, difficulty and salary, the picked category, zero counters, and an update time no earlier than publication when the clock did not run backwards |
| `Publish.NewPost` | src/components/PublishModal.tsx:65-93 | for any form, the post has trimmed title and content, an excerpt of its content, clean tags, zero counters, the member's id and the form's anonymity flag |
| `Publish.BuildPost` | src/components/PublishModal.tsx:50-93 | a post is built exactly when validation passes, otherwise the validation error is returned; the post carries the two clock readings |
| `PostCard.ElapsedHours` | src/components/PostCard.tsx:54-55 | the elapsed hours are the floor of the elapsed milliseconds over 3600000, negative for a future date |
| `PostCard.AgeOf` | src/components/PostCard.tsx:57-60 | exactly one bucket applies: just now below one hour, hours below 24, whole days below 168, whole weeks from there on |
| `PostCard.AgeMonotone` | src/components/PostCard.tsx:53-61 | a longer elapsed time never shows a younger age |
| `PostCard.TimeAgo` | src/components/PostCard.tsx:53-61 | "Just now" is shown exactly while less than an hour has passed, or the date is ahead |
| `PostCard.RenderJustNow` | src/components/PostCard.tsx:57-60 | only the first bucket reads "Just now" |
| `PostCard.Render` | src/components/PostCard.tsx:57-60 | the first bucket reads "Just now"; every other bucket ends in " ago" |
| `PostCard.RenderReadsBack` | src/components/PostCard.tsx:58-60 | the shown count reads back with `parseInt`, and the letter after it names the unit |
| `PostCard.RenderInjective` | src/components/PostCard.tsx:57-60 | different ages are shown differently |
| `PostCard.UnitOf` | src/components/PostCard.tsx:24-25 | amounts of at least 10000000 rupees are in crores, those from 100000 below that in lakhs, and all others, NaN included, are plain |
| `PostCard.UnitMonotone` | src/components/PostCard.tsx:24-25 | a larger amount never takes a smaller unit |
| `PostCard.FormatAmount` | src/components/PostCard.tsx:23-27 | crore amounts end in "Cr", lakh amounts in "L", others are the plain number |
| `PostCard.PlainAmountReadsBack` | src/components/PostCard.tsx:26 | a plainly written amount reads back with `parseInt` |
| `PostCard.LakhsShownAs` | src/components/PostCard.tsx:24-25 | a bound entered as n lakhs shows as n L below 100 lakhs, as n/100 Cr from 100 lakhs up, and as 0 for zero |
| `PostCard.FormatSalary` | src/components/PostCard.tsx:29 | the range is the formatted minimum, " - ", the formatted maximum, a space and the currency, in that order |
| `PostCard.SalaryMinReadsBack` | src/components/PostCard.tsx:29 | a plainly written minimum reads back from the front of the range |
| `PostCard.SalaryMaxReadsBack` | src/components/PostCard.tsx:29 | a plainly written maximum reads back with `parseInt` from just after the " - " |
| `PostCard.CategoryColor` | src/components/PostCard.tsx:32-42 | the badge is gray exactly for strings that are not one of the six categories, and each category has its listed colour |
| `PostCard.DifficultyColor` | src/components/PostCard.tsx:44-51 | the badge is gray exactly for strings other than Easy, Medium and Hard, each of which has its listed colour |
| `PostCard.CategoryColorsDistinct` | src/components/PostCard.tsx:33-40 | no two categories share a colour |
| `PostCard.CategoryLabel` | src/components/PostCard.tsx:139 | the label is as long as the id, and a hyphen-free id only has its word starts upper-cased |
| `PostCard.CategoryLabelShape` | src/components/PostCard.tsx:139 | the first hyphen of an id becomes a space |
| `PostCard.CategoryLabelKeepsLaterHyphens` | src/components/PostCard.tsx:139 | every hyphen after the first stays in the label |
| `PostCard.CategoryLabelOfWord` | src/components/PostCard.tsx:139 | a character of a hyphen-free id is upper-cased exactly when it starts a word |
| `PostCard.CategoryLabelOfFirstWord` | src/components/PostCard.tsx:139 | an id made of a lower-case word, a hyphen and a rest is labelled as the capitalised word, a space, and the rest with its word starts upper-cased |
| `PostCard.VisibleTags` | src/components/PostCard.tsx:164 | the card shows the first min(4, n) tags in order |
| `PostCard.MoreTags` | src/components/PostCard.tsx:172-173 | the marker is shown exactly when there are more than four tags |
| `PostCard.TagsAccounted` | src/components/PostCard.tsx:164-174 | every tag is shown or counted: the marker's number is exactly the number of hidden tags |
| `PostCard.HandleEngagementClick` | src/components/PostCard.tsx:63-66 | the click stops propagating, and a given listener receives exactly one call with the post's id and the engagement kind |
| `Feed.InitialPosts` | src/App.tsx:20-21 | the page starts with the stored posts when there are any, else the sample posts |
| `Feed.WithCategory` | src/App.tsx:37 | the filter keeps only posts of the category and never lengthens the list |
| `Feed.FilterPosts` | src/App.tsx:35-37 | "all" lists every post unchanged; any selection lists at most all posts |
| `Feed.WithCategoryIsSubsequence` | src/App.tsx:35-37 | the filtered list is a subsequence of the posts, in their order |
| `Feed.WithCategoryCounts` | src/App.tsx:37 | each post of the category is kept as often as it occurs, and no other post is kept |
| `Feed.WithCategoryAppend` | src/App.tsx:37 | filtering distributes over concatenation |
| `Feed.WithCategoryIdempotent` | src/App.tsx:37 | filtering twice by one category is filtering once |
| `Feed.FilterPostsIdempotent` | src/App.tsx:35-37 | the page's filter applied twice is the filter applied once |
| `Feed.CategoriesDisjoint` | src/App.tsx:37 | two different categories together list at most all posts |
| `Feed.Companies` | src/App.tsx:83 | every company a post names is counted, and no empty name is |
| `Feed.CompaniesAppend` | src/App.tsx:83 | the companies of two lists together are the union of each list's companies |
| `Feed.CompaniesOfOne` | src/App.tsx:83 | one post covers its company when it names one, and none otherwise |
| `Feed.CompaniesBound` | src/App.tsx:83 | there are never more distinct companies than posts |
| `Feed.Total` | src/App.tsx:89-95 | the total is at least the count of every single post |
| `Feed.TotalAppend` | src/App.tsx:89-95 | the view and upvote totals are additive over concatenation |
| `Feed.TotalOfCategory` | src/App.tsx:89-95 | the posts of one category never add up to more than all posts |
| `Feed.StatsOf` | src/App.tsx:78-95 | the statistics bar counts every post, and never shows more companies than posts |
| `Feed.StatsAfterPublish` | src/App.tsx:78-95 | a newly published post adds one post, no views and no upvotes, and one company exactly when it names a company no earlier post named; listing it first gives the same figures as listing it last |
| `Feed.StatsOrderFree` | src/App.tsx:78-95 | the statistics bar does not depend on the order of the posts |
| `Feed.Heading` | src/App.tsx:67-68 | the heading is "Latest Posts" for "all", otherwise exactly the label the cards show for the category |
| `Feed.HeadingOfWord` | src/App.tsx:67-68 | the heading of a one-word lower-case category such as "learning" is that word capitalised |
| `Feed.HeadingOfCategory` | src/App.tsx:67-68 | the heading of a category id follows the card label's first-hyphen and capitalising rule |
| `Feed.CountLabel` | src/App.tsx:108 | the line starts with the numeral of the count and ends with " found" |
| `Feed.CountLabelReadsBack` | src/App.tsx:108 | the count line starts with the number of listed posts |
| `Feed.CountLabelSingular` | src/App.tsx:108 | the line reads "1 post found" for one post and for no other count |
| `Feed.CountLabelPlural` | src/App.tsx:108 | every other count ends in " posts found" |
| `Feed.MenuChoicesColoured` | src/components/PublishModal.tsx:33-47 | every category of the dialog's menu, and every difficulty except the placeholder, has a colour of its own |
| `Feed.PublishedBadgesColoured` | src/components/PostCard.tsx:138-146 | a post published with menu choices never gets a gray category or difficulty badge |

## Left out

- The feed's store (`RealtimeService`: `loadFromStorage`, `initialize`,
  `addListener`, `addPost`, `updateEngagement`) is not part of this model.
  Its source is not among the files modelled. The dialog records the posts
  it hands to the store in `submitted`, and the page takes the stored posts
  as a parameter.
- The error a throwing `addPost` would show ("Failed to publish post...")
  is left out, because the store is not modelled.
- The authentication context (`src/AuthContext.tsx`) is not part of this
  model. The builder takes the signed-in member as a `User`, since the
  publish button is shown only to signed-in members. The outcome of `user!`
  with no member is not modelled.
- The header, the sidebar, all JSX rendering and the React state and effect
  machinery are not modelled. The sidebar's category list and filter
  checkboxes are among these.
- The 1.5-second wait before publishing and the 2-second wait before
  closing are not modelled. `HandleSubmit` completes the submission in one
  step, and `FinishPublish` is the timer's callback.
- The close button and the dialog's `isOpen` guard are not modelled.
- `PostCard.FormatAmount`: does not compute `toFixed(1)`. The quotient is a
  real number handed to the `fixed1` parameter, because floating-point
  formatting is outside the model. The unit branch and the suffix are
  modelled exactly.
- The `toLocaleString` grouping of view counts is left out, as locale
  formatting.
- `Numbers.ParseInt`: integers are unbounded. JavaScript loses precision
  above 2^53, and `String` switches to exponent notation above 10^21. Both
  are left out.
- `Publish.Excerpt`: strings are sequences of characters, whereas
  `substring` counts UTF-16 code units. A character outside the Basic
  Multilingual Plane counts as one character here.
- `PostCard.CategoryColor` and `PostCard.DifficultyColor` are lookups in a
  plain object literal. Keys inherited from `Object.prototype` (such as
  "constructor") would return a function there. The model treats every key
  outside the table as the gray default.
- `Publish.BuiltPostIsFresh`: does not promise that a post's update time is no
  earlier than its publication time. The two times are separate readings of
  the wall clock, which can step backwards between them. The order is stated
  only under the assumption `InOrder` that it did not.
- Post ids (`'post_' + Date.now()`) are modelled but not claimed unique.
  Two posts built in the same millisecond share an id.
- The optional `rating` of a post is shown by the card but never set by the
  core. It is left out of `Post`.
- The age shown by a card is computed from a `now` parameter and the post's
  `publishedAt` in milliseconds. Reading the clock is left out.
- `PostCard.HandleEngagementClick` models the click event and the
  `onEngagement` callback as two small objects that record what was done to
  them. What the page does with the call (`updateEngagement` in the store)
  is not modelled.
