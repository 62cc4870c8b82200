/**
  The free-text search of the question view: the questions whose title or
  body contains the query, ignoring letter case.
 */
module ViewQuestionPage {
  import Text
  import Sequences

  datatype Question = Question(id: string, title: string, body: string)

  /** The test `filteredQuestions` applies to one question. */
  predicate Matches(q: Question, query: string)
    ensures Matches(q, query) ==> |query| <= |q.title| || |query| <= |q.body|
  {
    || Text.Contains(Text.ToLower(q.title), Text.ToLower(query))
    || Text.Contains(Text.ToLower(q.body), Text.ToLower(query))
  }

  /** `filteredQuestions`: the matching questions, in their original order. */
  function FilteredQuestions(questions: seq<Question>, query: string): (r: seq<Question>)
    ensures |r| <= |questions|
    ensures forall i :: 0 <= i < |r| ==> r[i] in questions && Matches(r[i], query)
    ensures forall i :: 0 <= i < |questions| && Matches(questions[i], query) ==> questions[i] in r
  {
    Sequences.Filter(questions, q => Matches(q, query))
  }

  /** A question is kept iff it is one of the questions and matches, and it is
      kept as often as it occurs. */
  lemma KeptIffMatches(questions: seq<Question>, query: string, q: Question)
    ensures q in FilteredQuestions(questions, query) <==> q in questions && Matches(q, query)
    ensures multiset(FilteredQuestions(questions, query))[q] ==
              if Matches(q, query) then multiset(questions)[q] else 0
  {
    Sequences.FilterCount(questions, u => Matches(u, query), q);
  }

  /** The result keeps the order of the questions it keeps. */
  lemma FilteredIsSubsequence(questions: seq<Question>, query: string)
    ensures Sequences.IsSubsequence(FilteredQuestions(questions, query), questions)
  {
    Sequences.FilterIsSubsequence(questions, q => Matches(q, query));
  }

  /** An empty query keeps every question. */
  lemma EmptyQueryKeepsAll(questions: seq<Question>)
    ensures FilteredQuestions(questions, "") == questions
  {
    forall q | q in questions ensures Matches(q, "") {
      Text.ContainsEmpty(Text.ToLower(q.title));
    }
    Sequences.FilterAllKept(questions, q => Matches(q, ""));
  }

  /** Queries that differ only in the case of their letters select alike. */
  lemma CaseInsensitiveQuery(questions: seq<Question>, query1: string, query2: string)
    requires Text.ToLower(query1) == Text.ToLower(query2)
    ensures FilteredQuestions(questions, query1) == FilteredQuestions(questions, query2)
  {
    Sequences.FilterAgreeing(questions, q => Matches(q, query1), q => Matches(q, query2));
  }

  /** In particular the query selects as its lower-case form does. */
  lemma LowerCaseQuery(questions: seq<Question>, query: string)
    ensures FilteredQuestions(questions, Text.ToLower(query)) == FilteredQuestions(questions, query)
  {
    Text.ToLowerIdempotent(query);
    CaseInsensitiveQuery(questions, Text.ToLower(query), query);
  }

  /** Searching the result again with the same query changes nothing. */
  lemma FilterTwice(questions: seq<Question>, query: string)
    ensures FilteredQuestions(FilteredQuestions(questions, query), query) == FilteredQuestions(questions, query)
  {
    Sequences.FilterIdempotent(questions, q => Matches(q, query));
  }
}
