/** Parsed IAM policy statements and the action and resource matchers on them. */
module Policy {
  import opened Basics
  import opened Glob

  datatype Effect = Allow | Deny

  datatype ConditionKey = ConditionKey(key: string, values: seq<string>)

  datatype Condition = Condition(operator: string, keys: seq<ConditionKey>)

  /** An absent condition block and an empty one are both the empty list. */
  datatype Statement = Statement(
    effect: Effect,
    actions: seq<string>,
    resources: seq<string>,
    conditions: seq<Condition>,
    notActions: Option<seq<string>>,
    notResources: Option<seq<string>>)

  datatype Document = Unparseable | Parsed(statements: seq<Statement>)

  /** What a principal's documents say; one that does not parse says nothing. */
  function StatementsOf(documents: seq<Document>): seq<Statement> {
    if documents == [] then [] else
      var last := documents[|documents| - 1];
      StatementsOf(documents[..|documents| - 1]) + if last.Parsed? then last.statements else []
  }

  predicate IsDigit(c: char) { '0' <= c <= '9' }

  predicate IsActionMatched(pattern: string, action: string) {
    pattern == "*" || pattern == "*:*" || GlobMatch(Lower(pattern), Lower(action))
  }

  predicate IsResourceMatched(pattern: string, resource: string) {
    pattern == "*" || GlobMatch(pattern, resource)
  }

  predicate IsWildcard(action: string) {
    action == "*" || action == "*:*"
  }

  lemma WildcardMatches(pattern: string, action: string)
    requires IsWildcard(pattern)
    ensures IsActionMatched(pattern, action)
  {
  }

  /** For a star-free action, a pattern other than the two wildcards matches by its meaning alone. */
  lemma ActionMatchMeaning(pattern: string, action: string)
    requires '*' !in action
    ensures IsActionMatched(pattern, action)
        <==> IsWildcard(pattern) || Matches(Lower(pattern), Lower(action))
  {
    LowerKeepsStars(action);
    LowerTwice(pattern);
    LowerTwice(action);
    GlobMatchExact(Lower(pattern), Lower(action));
  }

  lemma ActionMatchReflexive(action: string)
    ensures IsActionMatched(action, action)
  {
    GlobMatchReflexive(Lower(action));
  }
}
