/**
 * `ProblemsPage`: the problem list filtered by a title query and a topic,
 * the "clear filters" button, and the description preview on each card.
 */
module ProblemsPage {
  import opened Dtos
  import opened Palette
  import Text
  import Lists

  /** `problem.title.toLowerCase().includes(searchQuery.toLowerCase())`. */
  function MatchesQuery(query: string): ProblemView -> bool {
    (p: ProblemView) => Text.Includes(Text.Lower(p.title), Text.Lower(query))
  }

  /** `problem.topics.some((topic) => topic.title === selectedTopic)`: an exact, case-sensitive match. */
  function HasTopic(topic: string): ProblemView -> bool {
    (p: ProblemView) => exists t :: t in p.topics && t.title == topic
  }

  /** The filter a problem has to pass: a query, when there is one, and a topic, when one is selected. */
  function Passes(query: string, topic: string): ProblemView -> bool {
    (p: ProblemView) => (query == "" || MatchesQuery(query)(p)) && (topic == "" || HasTopic(topic)(p))
  }

  /**
   * `applyFilters`: the title filter when the query is non-empty, then the
   * topic filter when a topic is selected. A query of spaces is not empty,
   * so it is applied.
   */
  function ApplyFilters(problems: seq<ProblemView>, query: string, topic: string): (r: seq<ProblemView>)
    ensures forall p :: p in r <==> p in problems && Passes(query, topic)(p)
    ensures query == "" && topic == "" ==> r == problems
  {
    var byQuery := if query != "" then Lists.Filter(problems, MatchesQuery(query)) else problems;
    if topic != "" then Lists.Filter(byQuery, HasTopic(topic)) else byQuery
  }

  /** The two filters in sequence are one filter by both tests. */
  lemma ApplyFiltersIsOneFilter(problems: seq<ProblemView>, query: string, topic: string)
    ensures ApplyFilters(problems, query, topic) == Lists.Filter(problems, Passes(query, topic))
  {
    var keep := Passes(query, topic);
    if query != "" && topic != "" {
      Lists.FilterBoth(problems, MatchesQuery(query), HasTopic(topic), keep);
    } else if query != "" {
      Lists.FilterSame(problems, MatchesQuery(query), keep);
    } else if topic != "" {
      Lists.FilterSame(problems, HasTopic(topic), keep);
    } else {
      Lists.FilterKeepsAll(problems, keep);
    }
  }

  /** The shown problems are some of the loaded ones, in their loaded order. */
  lemma FilteredKeepsOrder(problems: seq<ProblemView>, query: string, topic: string)
    ensures Lists.Subsequence(ApplyFilters(problems, query, topic), problems)
  {
    ApplyFiltersIsOneFilter(problems, query, topic);
    Lists.FilterIsSubsequence(problems, Passes(query, topic));
  }

  /** Filtering the shown list again with the same query and topic changes nothing. */
  lemma ApplyFiltersIdempotent(problems: seq<ProblemView>, query: string, topic: string)
    ensures ApplyFilters(ApplyFilters(problems, query, topic), query, topic) == ApplyFilters(problems, query, topic)
  {
    ApplyFiltersIsOneFilter(problems, query, topic);
    ApplyFiltersIsOneFilter(ApplyFilters(problems, query, topic), query, topic);
    Lists.FilterIdempotent(problems, Passes(query, topic));
  }

  /** A query of one space keeps only the problems whose title has a space. */
  lemma SpaceQueryIsApplied(problems: seq<ProblemView>)
    ensures forall p :: p in ApplyFilters(problems, " ", "") <==> p in problems && Text.Includes(Text.Lower(p.title), " ")
  {
    assert Text.Lower(" ") == " ";
  }

  /** The search box and the topic selector. */
  datatype Filters = Filters(searchQuery: string, selectedTopic: string)

  /** `clearFilters`: both filters emptied. */
  function ClearFilters(f: Filters): (r: Filters)
    ensures r.searchQuery == "" && r.selectedTopic == ""
  {
    Filters("", "")
  }

  /** After clearing, every loaded problem is shown again. */
  lemma ClearedFiltersShowAll(problems: seq<ProblemView>, f: Filters)
    ensures ApplyFilters(problems, ClearFilters(f).searchQuery, ClearFilters(f).selectedTopic) == problems
  {
  }

  /**
   * The card's description: `substring(0, 150)`, then "..." when the
   * description is longer than 150. Both count UTF-16 code units; a long
   * description keeps its first 149 or 150 units, fewer only when the 150th
   * unit would split a character above U+FFFF.
   */
  function Preview(description: string): (r: string)
    ensures Text.Utf16Length(description) <= 150 ==> r == description
    ensures Text.Utf16Length(description) > 150 ==>
      |r| >= 3 && r[|r| - 3..] == "..." && r[..|r| - 3] < description
      && 149 <= Text.Utf16Length(r[..|r| - 3]) <= 150
  {
    if Text.Utf16Length(description) > 150 then
      var cut := Text.Utf16Prefix(description, 150);
      assert (cut + "...")[..|cut|] == cut;
      cut + "..."
    else description
  }

  /**
   * A preview is never longer than 153 code units, starts with the longest
   * part of the description that fits in 150, and is that part, with
   * nothing appended, exactly when the description fits.
   */
  lemma PreviewIsBoundedPrefix(description: string)
    ensures Text.Utf16Length(Preview(description)) <= 153
    ensures Text.StartsWith(Preview(description), Text.Utf16Prefix(description, 150))
    ensures Preview(description) == Text.Utf16Prefix(description, 150) <==> Text.Utf16Length(description) <= 150
  {
    var cut := Text.Utf16Prefix(description, 150);
    if Text.Utf16Length(description) > 150 {
      Text.Utf16LengthAppend(cut, "...");
      assert Preview(description) == cut + "...";
      assert Preview(description)[..|cut|] == cut;
    } else {
      Text.FittingTextIsItsOwnPrefix(description, 150);
    }
  }

  /** A description of 100 characters above U+FFFF is 200 code units long, so its card cuts it. */
  lemma AstralDescriptionIsCut(description: string)
    requires |description| == 100 && forall i :: 0 <= i < |description| ==> description[i] as int > 0xFFFF
    ensures Preview(description) != description
    ensures Text.Utf16Length(description) == 200
  {
    Text.AstralTextCountsTwice(description);
  }

  /** This page's `getDifficultyColor` does not lower-case: only the exact words are coloured. */
  function ExactDifficultyColor(difficulty: string): (c: Color)
    ensures c == Success <==> difficulty == "easy"
    ensures c == Warning <==> difficulty == "medium"
    ensures c == Error <==> difficulty == "hard"
  {
    if difficulty == "easy" then Success
    else if difficulty == "medium" then Warning
    else if difficulty == "hard" then Error
    else Default
  }

  /** "Easy" is coloured on the homework page but not here. */
  lemma CapitalisedDifficultyDiffers()
    ensures ExactDifficultyColor("Easy") == Default && DifficultyColor("Easy") == Success
  {
    assert Text.Lower("Easy") == "easy";
  }
}
