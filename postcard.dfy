/** The display helpers of a post card: how long ago a post was published,
    how a salary range is written, the colour of the category and difficulty
    badges, the category label, which tags are shown, and what a click on an
    engagement button does. */
module PostCard {
  import opened Wrappers
  import opened Text
  import opened Numbers
  import opened Posts

  // ---------------------------------------------------------------------
  // Publication age (`timeAgo`)
  // ---------------------------------------------------------------------

  /** Milliseconds in an hour. */
  const HourMillis := 1000 * 60 * 60

  /** `Math.floor((now - date) / 3600000)`: the whole hours elapsed, rounded
      down, so negative for a date in the future. */
  function ElapsedHours(now: int, date: int): (h: int)
    ensures h * HourMillis <= now - date < (h + 1) * HourMillis
  {
    (now - date) / HourMillis
  }

  /** The bucket a post's age falls in, with the number it shows. */
  datatype Age = JustNow | HoursAgo(hours: nat) | DaysAgo(days: nat) | WeeksAgo(weeks: nat)

  /** The bucket for `h` elapsed hours: under an hour (the future included)
      is "just now"; under a day counts hours; under a week counts whole days;
      anything older counts whole weeks. */
  function AgeOf(h: int): (a: Age)
    ensures a.JustNow? <==> h < 1
    ensures a.HoursAgo? <==> 1 <= h < 24
    ensures a.DaysAgo? <==> 24 <= h < 168
    ensures a.WeeksAgo? <==> 168 <= h
    ensures a.HoursAgo? ==> a.hours == h
    ensures a.DaysAgo? ==> 24 * a.days <= h < 24 * (a.days + 1)
    ensures a.WeeksAgo? ==> 168 * a.weeks <= h < 168 * (a.weeks + 1)
  {
    if h < 1 then JustNow
    else if h < 24 then HoursAgo(h)
    else if h < 168 then DaysAgo(h / 24)
    else WeeksAgo(h / 168)
  }

  /** The fewest hours an age can stand for. */
  function MinHours(a: Age): nat {
    match a
    case JustNow => 0
    case HoursAgo(n) => n
    case DaysAgo(n) => 24 * n
    case WeeksAgo(n) => 168 * n
  }

  /** An older post never shows a younger age: the hours an age stands for
      grow with the hours elapsed. */
  lemma AgeMonotone(h1: int, h2: int)
    requires h1 <= h2
    ensures MinHours(AgeOf(h1)) <= MinHours(AgeOf(h2))
  {
    var a1, a2 := AgeOf(h1), AgeOf(h2);
    if a1.DaysAgo? && a2.WeeksAgo? {
      assert MinHours(a1) <= h1 && 168 <= MinHours(a2);
    }
  }

  /** The text shown for an age: "Just now", or a count and its unit
      followed by " ago". */
  function Render(a: Age): (r: string)
    ensures a.JustNow? ==> r == "Just now"
    ensures !a.JustNow? ==> |r| > 5 && r[|r| - 4..] == " ago"
  {
    match a
    case JustNow => "Just now"
    case HoursAgo(n) => NatToString(n) + "h ago"
    case DaysAgo(n) => NatToString(n) + "d ago"
    case WeeksAgo(n) => NatToString(n) + "w ago"
  }

  /** `timeAgo(date)` read at time `now`: it reads "Just now" exactly while
      less than an hour has passed since the date (or the date is still
      ahead). */
  function TimeAgo(now: int, date: int): (r: string)
    ensures r == "Just now" <==> now - date < HourMillis
  {
    var h := ElapsedHours(now, date);
    RenderJustNow(AgeOf(h));
    FirstHour(now - date, h);
    Render(AgeOf(h))
  }

  /** Less than one whole hour is exactly less than an hour's milliseconds. */
  lemma FirstHour(d: int, h: int)
    requires h * HourMillis <= d < (h + 1) * HourMillis
    ensures h < 1 <==> d < HourMillis
  {
    if h >= 1 {
      assert h * HourMillis >= HourMillis;
    } else {
      assert (h + 1) * HourMillis <= HourMillis;
    }
  }

  /** Only the "just now" bucket reads "Just now". */
  lemma RenderJustNow(a: Age)
    ensures Render(a) == "Just now" <==> a.JustNow?
  {
    if !a.JustNow? {
      var r := Render(a);
      assert r[|r| - 4..] == " ago";
      assert "Just now"[4..] == " now";
    }
  }

  /** The number an age shows, as `parseInt` reads it from the text. */
  function Shown(a: Age): Num {
    match a
    case JustNow => NaN
    case HoursAgo(n) => Int(n)
    case DaysAgo(n) => Int(n)
    case WeeksAgo(n) => Int(n)
  }

  /** The count reads back from the front of the text ("Just now" holds no
      number), and the letter after it names the unit. */
  lemma RenderReadsBack(a: Age)
    ensures ParseInt(Render(a)) == Shown(a)
    ensures a.JustNow? <==> Render(a) == "Just now"
    ensures !a.JustNow? ==> |Render(a)| >= 6 && Render(a)[|Render(a)| - 5..] in {"h ago", "d ago", "w ago"}
    ensures a.HoursAgo? ==> Render(a)[|Render(a)| - 5] == 'h'
    ensures a.DaysAgo? ==> Render(a)[|Render(a)| - 5] == 'd'
    ensures a.WeeksAgo? ==> Render(a)[|Render(a)| - 5] == 'w'
  {
    var r := Render(a);
    match a
    case JustNow =>
      assert r[0] == 'J' && r[1] == 'u';
      TrimStartOfNonSpace(r);
    case HoursAgo(n) =>
      ParseIntOfNatToStringThen(n, "h ago");
    case DaysAgo(n) =>
      ParseIntOfNatToStringThen(n, "d ago");
    case WeeksAgo(n) =>
      ParseIntOfNatToStringThen(n, "w ago");
  }

  /** Different ages are shown differently. */
  lemma RenderInjective(a: Age, b: Age)
    requires Render(a) == Render(b)
    ensures a == b
  {
    RenderReadsBack(a);
    RenderReadsBack(b);
  }

  // ---------------------------------------------------------------------
  // Salary (`formatSalary`, `formatAmount`)
  // ---------------------------------------------------------------------

  /** The unit an amount is written in. */
  datatype Unit = Crore | Lakh | Plain

  /** `formatAmount`'s branch: crores from ten million rupees up, lakhs from
      a hundred thousand, else the plain number (NaN and negative amounts
      included, since every comparison with NaN is false). */
  function UnitOf(amount: Num): (u: Unit)
    ensures u == Crore <==> amount.Int? && RupeesPerCrore <= amount.value
    ensures u == Lakh <==> amount.Int? && RupeesPerLakh <= amount.value < RupeesPerCrore
    ensures u == Plain <==> amount.NaN? || amount.value < RupeesPerLakh
  {
    if amount.Int? && amount.value >= RupeesPerCrore then Crore
    else if amount.Int? && amount.value >= RupeesPerLakh then Lakh
    else Plain
  }

  function UnitRank(u: Unit): nat {
    match u
    case Plain => 0
    case Lakh => 1
    case Crore => 2
  }

  /** A larger amount never takes a smaller unit. */
  lemma UnitMonotone(a: int, b: int)
    requires a <= b
    ensures UnitRank(UnitOf(Int(a))) <= UnitRank(UnitOf(Int(b)))
  {
  }

  /** `formatAmount(amount)`: the amount in crores or lakhs with one decimal
      and the unit's suffix, or the plain number. `fixed1` stands for
      `toFixed(1)` on the quotient, which the model does not compute. */
  function FormatAmount(amount: Num, fixed1: real -> string): (r: string)
    ensures UnitOf(amount) == Crore ==> |r| >= 2 && r[|r| - 2..] == "Cr"
    ensures UnitOf(amount) == Lakh ==> |r| >= 1 && r[|r| - 1] == 'L'
    ensures UnitOf(amount) == Plain ==> r == NumToString(amount)
  {
    match UnitOf(amount)
    case Crore => fixed1(amount.value as real / RupeesPerCrore as real) + "Cr"
    case Lakh => fixed1(amount.value as real / RupeesPerLakh as real) + "L"
    case Plain => NumToString(amount)
  }

  /** A plainly written amount reads back with `parseInt`. */
  lemma PlainAmountReadsBack(amount: Num, fixed1: real -> string)
    requires UnitOf(amount) == Plain
    ensures ParseInt(FormatAmount(amount, fixed1)) == amount
  {
    ParseIntOfNumToStringThen(amount, []);
    assert NumToString(amount) + [] == NumToString(amount);
  }

  /** A bound entered as `n` lakhs is shown as `n` itself with the L suffix
      up to 99 lakhs, as `n / 100` crores from 100 lakhs up, and as `0` when
      `n` is zero. */
  lemma LakhsShownAs(n: nat, fixed1: real -> string)
    ensures n == 0 ==> FormatAmount(Int(n * RupeesPerLakh), fixed1) == "0"
    ensures 1 <= n < 100 ==> FormatAmount(Int(n * RupeesPerLakh), fixed1) == fixed1(n as real) + "L"
    ensures 100 <= n ==> FormatAmount(Int(n * RupeesPerLakh), fixed1) == fixed1(n as real / 100.0) + "Cr"
  {
    var v := n * RupeesPerLakh;
    assert (v as real) / (RupeesPerLakh as real) == n as real;
    assert (v as real) / (RupeesPerCrore as real) == n as real / 100.0;
  }

  /** `formatSalary(salary)`: "min - max currency". */
  function FormatSalary(s: Salary, fixed1: real -> string): (r: string)
    ensures |r| > |FormatAmount(s.min, fixed1)| && r[..|FormatAmount(s.min, fixed1)|] == FormatAmount(s.min, fixed1)
    ensures |r| > |s.currency| && r[|r| - |s.currency|..] == s.currency
    ensures |FormatAmount(s.min, fixed1)| + 3 + |FormatAmount(s.max, fixed1)| + 1 + |s.currency| == |r|
    ensures r[|FormatAmount(s.min, fixed1)|..|r| - |s.currency|] == " - " + FormatAmount(s.max, fixed1) + " "
  {
    FormatAmount(s.min, fixed1) + " - " + FormatAmount(s.max, fixed1) + " " + s.currency
  }

  /** A plainly written lower bound reads back from the front of the range. */
  lemma SalaryMinReadsBack(s: Salary, fixed1: real -> string)
    requires UnitOf(s.min) == Plain
    ensures ParseInt(FormatSalary(s, fixed1)) == s.min
  {
    var rest := " - " + FormatAmount(s.max, fixed1) + " " + s.currency;
    assert FormatSalary(s, fixed1) == NumToString(s.min) + rest;
    ParseIntOfNumToStringThen(s.min, rest);
  }

  /** A plainly written upper bound reads back from just after the " - "
      that follows the lower bound. */
  lemma SalaryMaxReadsBack(s: Salary, fixed1: real -> string)
    requires UnitOf(s.max) == Plain
    ensures var r := FormatSalary(s, fixed1);
      ParseInt(r[|FormatAmount(s.min, fixed1)| + 3..]) == s.max
  {
    var r := FormatSalary(s, fixed1);
    var rest := " " + s.currency;
    assert r[|FormatAmount(s.min, fixed1)| + 3..] == NumToString(s.max) + rest;
    ParseIntOfNumToStringThen(s.max, rest);
  }

  // ---------------------------------------------------------------------
  // Badges (`getCategoryColor`, `getDifficultyColor`, category label)
  // ---------------------------------------------------------------------

  /** The classes of a badge with no colour of its own. */
  const Gray := "bg-gray-100 text-gray-800"

  const CategoryColors: map<string, string> := map[
    "interview-experience" := "bg-blue-100 text-blue-800",
    "preparation-tips" := "bg-green-100 text-green-800",
    "company-culture" := "bg-purple-100 text-purple-800",
    "career-thoughts" := "bg-orange-100 text-orange-800",
    "qa-format" := "bg-pink-100 text-pink-800",
    "learning" := "bg-indigo-100 text-indigo-800"]

  const DifficultyColors: map<string, string> := map[
    "Easy" := "bg-green-100 text-green-800",
    "Medium" := "bg-yellow-100 text-yellow-800",
    "Hard" := "bg-red-100 text-red-800"]

  /** `getCategoryColor`: the category's own colour, or gray for any string
      that is not one of the six categories. */
  function CategoryColor(category: string): (r: string)
    ensures r == Gray <==> category !in CategoryColors
    ensures category in CategoryColors ==> r == CategoryColors[category]
  {
    if category in CategoryColors then CategoryColors[category] else Gray
  }

  /** `getDifficultyColor`: green, yellow or red for the three levels, gray
      for anything else. */
  function DifficultyColor(difficulty: string): (r: string)
    ensures r == Gray <==> difficulty !in DifficultyColors
    ensures difficulty in DifficultyColors ==> r == DifficultyColors[difficulty]
  {
    if difficulty in DifficultyColors then DifficultyColors[difficulty] else Gray
  }

  /** No two categories share a colour, so the badge's colour tells the
      category apart. */
  lemma CategoryColorsDistinct(a: string, b: string)
    requires a in CategoryColors && b in CategoryColors && a != b
    ensures CategoryColor(a) != CategoryColor(b)
  {
  }

  /** The display label of a category id
      (`replace('-', ' ').replace(/\b\w/g, l => l.toUpperCase())`): the first
      `-` becomes a space, then every word start is upper-cased. */
  function CategoryLabel(id: string): (r: string)
    ensures |r| == |id|
    ensures '-' !in id ==> r == UpperWordStarts(id)
  {
    UpperWordStarts(ReplaceFirst(id, '-', ' '))
  }

  /** The first hyphen of an id becomes a space in its label. */
  lemma CategoryLabelShape(id: string)
    requires '-' in id
    ensures CategoryLabel(id)[IndexOf(id, '-')] == ' '
  {
  }

  /** Only the first `-` is replaced: every later one stays in the label. */
  lemma CategoryLabelKeepsLaterHyphens(id: string, k: nat)
    requires k < |id| && id[k] == '-' && k != IndexOf(id, '-')
    ensures CategoryLabel(id)[k] == '-'
  {
    var t := ReplaceFirst(id, '-', ' ');
    assert t[k] == '-';
  }

  /** Label characters that start no word are the id's own characters (or
      the space that replaced the first `-`); characters that start a word
      are upper-cased. */
  lemma CategoryLabelOfWord(id: string, k: nat)
    requires '-' !in id && k < |id|
    ensures CategoryLabel(id)[k] == if WordStart(id, k) then Upper(id[k]) else id[k]
  {
  }

  /** A non-empty run of lower-case letters. */
  predicate LowerWord(w: string) {
    w != [] && forall k | 0 <= k < |w| :: 'a' <= w[k] <= 'z'
  }

  /** The word with its first letter upper-cased. */
  function Capitalised(w: string): (r: string)
    requires w != []
    ensures |r| == |w|
  {
    [Upper(w[0])] + w[1..]
  }

  /** A lower-case word at the start of a text has just its first letter
      upper-cased. */
  lemma UpperLowerWord(a: string)
    requires LowerWord(a)
    ensures UpperWordStartsAfter(a, false) == Capitalised(a)
  {
    var r := UpperWordStartsAfter(a, false);
    forall k | 0 <= k < |a| ensures r[k] == Capitalised(a)[k] {
      assert k > 0 ==> IsWordChar(a[k - 1]);
    }
  }

  /** The first `-` of a text whose first part holds none. */
  lemma ReplaceFirstHyphen(a: string, b: string)
    requires '-' !in a
    ensures ReplaceFirst(a + "-" + b, '-', ' ') == a + " " + b
  {
    var id := a + "-" + b;
    assert id[|a|] == '-' && id[..|a|] == a;
    assert IndexOf(id, '-') == |a|;
  }

  lemma UpperWordStartsFromStart(t: string)
    ensures UpperWordStarts(t) == UpperWordStartsAfter(t, false)
  {
  }

  /** A lower-case word and a space at the start of a text: the word is
      capitalised, the space kept, and the rest starts afresh. */
  lemma UpperAfterFirstWord(a: string, b: string)
    requires LowerWord(a)
    ensures UpperWordStartsAfter(a + " " + b, false) == Capitalised(a) + " " + UpperWordStartsAfter(b, false)
  {
    UpperWordStartsSplit(a, " " + b, false);
    UpperWordStartsSplit(" ", b, IsWordChar(a[|a| - 1]));
    UpperLowerWord(a);
    assert UpperWordStartsAfter(" ", IsWordChar(a[|a| - 1])) == " ";
    assert a + " " + b == a + (" " + b);
  }

  /** The label of an id that starts with a lower-case word and a hyphen:
      that word capitalised, a space, then the rest of the id with its word
      starts upper-cased and any further hyphen kept. So
      "interview-experience" reads "Interview Experience", and "a-b-c" reads
      "A B-C". */
  lemma CategoryLabelOfFirstWord(a: string, b: string)
    requires LowerWord(a)
    ensures CategoryLabel(a + "-" + b) == Capitalised(a) + " " + UpperWordStarts(b)
  {
    assert '-' !in a;
    ReplaceFirstHyphen(a, b);
    UpperWordStartsFromStart(a + " " + b);
    UpperWordStartsFromStart(b);
    UpperAfterFirstWord(a, b);
  }

  // ---------------------------------------------------------------------
  // Tags
  // ---------------------------------------------------------------------

  /** How many tags a card shows. */
  const ShownTags := 4

  /** `tags.slice(0, 4)`: the first four tags, or all of them when fewer. */
  function VisibleTags(tags: seq<string>): (r: seq<string>)
    ensures |r| == if |tags| < ShownTags then |tags| else ShownTags
    ensures r == tags[..|r|]
  {
    if |tags| <= ShownTags then tags else tags[..ShownTags]
  }

  /** The "+N more" marker, present exactly when some tags are hidden. */
  function MoreTags(tags: seq<string>): (r: Option<string>)
    ensures r.Some? <==> |tags| > ShownTags
  {
    if |tags| > ShownTags then Some("+" + NatToString(|tags| - ShownTags) + " more") else None
  }

  /** Every tag is either shown or counted by the marker: the number after
      the `+` is exactly the number of tags left out. */
  lemma TagsAccounted(tags: seq<string>)
    ensures MoreTags(tags).None? ==> VisibleTags(tags) == tags
    ensures MoreTags(tags).Some? ==>
      var m := MoreTags(tags).value;
      m[0] == '+' && ParseInt(m[1..]) == Int(|tags| - |VisibleTags(tags)|)
  {
    if |tags| > ShownTags {
      var n := |tags| - ShownTags;
      var m := MoreTags(tags).value;
      assert m[1..] == NatToString(n) + " more";
      ParseIntOfNatToStringThen(n, " more");
    }
  }

  // ---------------------------------------------------------------------
  // Engagement buttons (`handleEngagementClick`)
  // ---------------------------------------------------------------------

  /** The click event, as far as the card touches it. */
  class ClickEvent {
    var propagationStopped: bool

    constructor ()
      ensures !propagationStopped
    {
      propagationStopped := false;
    }
  }

  /** The `onEngagement` callback, recording every call it receives. */
  class EngagementListener {
    var calls: seq<(string, EngagementKind)>

    constructor ()
      ensures calls == []
    {
      calls := [];
    }
  }

  /** `handleEngagementClick`: stop the click from reaching the card (which
      would open the post), then report the engagement on this post once,
      when a listener is given; without one nothing else happens. */
  method HandleEngagementClick(e: ClickEvent, post: Post, kind: EngagementKind, onEngagement: EngagementListener?)
    modifies e, onEngagement
    ensures e.propagationStopped
    ensures onEngagement != null ==> onEngagement.calls == old(onEngagement.calls) + [(post.id, kind)]
  {
    e.propagationStopped := true;
    if onEngagement != null {
      onEngagement.calls := onEngagement.calls + [(post.id, kind)];
    }
  }
}
