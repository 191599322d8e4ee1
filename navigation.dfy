/** Filtered prev/next navigation between overlays: from the current index,
    the nearest card in each direction whose name matches the search text. */
module Navigation {
  import opened Search

  /** The first index after `current` whose card matches, or -1. */
  ghost function NextMatch(cards: seq<Card>, search: string, current: int): (r: int)
    requires -1 <= current
    ensures r == -1 || current < r < |cards|
    decreases |cards| - current
  {
    if current + 1 >= |cards| then -1
    else if Matches(cards[current + 1], search) then current + 1
    else NextMatch(cards, search, current + 1)
  }

  /** The last index before `current` whose card matches, or -1. */
  ghost function PreviousMatch(cards: seq<Card>, search: string, current: int): (r: int)
    requires current <= |cards|
    ensures r == -1 || 0 <= r < current
    decreases current
  {
    if current - 1 < 0 then -1
    else if Matches(cards[current - 1], search) then current - 1
    else PreviousMatch(cards, search, current - 1)
  }

  /** No card strictly between `lo` and `hi` matches. */
  ghost predicate NoMatchBetween(cards: seq<Card>, search: string, lo: int, hi: int)
  {
    forall i :: lo < i < hi && 0 <= i < |cards| ==> !Matches(cards[i], search)
  }

  /** The next match is the nearest matching index after `current`, and there
      is none exactly when no card after `current` matches. */
  lemma {:induction false} NextMatchIsNearest(cards: seq<Card>, search: string, current: int)
    requires -1 <= current
    ensures var r := NextMatch(cards, search, current);
      && (r == -1 <==> NoMatchBetween(cards, search, current, |cards|))
      && (r != -1 ==> current < r < |cards| && Matches(cards[r], search)
                      && NoMatchBetween(cards, search, current, r))
    decreases |cards| - current
  {
    if current + 1 < |cards| && !Matches(cards[current + 1], search) {
      NextMatchIsNearest(cards, search, current + 1);
    }
  }

  /** The previous match is the nearest matching index before `current`, and
      there is none exactly when no card before `current` matches. */
  lemma {:induction false} PreviousMatchIsNearest(cards: seq<Card>, search: string, current: int)
    requires current <= |cards|
    ensures var r := PreviousMatch(cards, search, current);
      && (r == -1 <==> NoMatchBetween(cards, search, -1, current))
      && (r != -1 ==> 0 <= r < current && Matches(cards[r], search)
                      && NoMatchBetween(cards, search, r, current))
    decreases current
  {
    if 0 <= current - 1 && !Matches(cards[current - 1], search) {
      PreviousMatchIsNearest(cards, search, current - 1);
    }
  }

  /** Nothing follows the last card and nothing precedes the first. */
  lemma {:induction false} NoNavigationPastTheEnds(cards: seq<Card>, search: string)
    ensures NextMatch(cards, search, |cards| - 1) == -1
    ensures PreviousMatch(cards, search, 0) == -1
  {
  }

  /** Under a search text that no card matches, both directions are empty. */
  lemma NoMatchNoNavigation(cards: seq<Card>, search: string, current: int)
    requires -1 <= current <= |cards|
    requires forall i :: 0 <= i < |cards| ==> !Matches(cards[i], search)
    ensures NextMatch(cards, search, current) == -1
    ensures PreviousMatch(cards, search, current) == -1
  {
    NextMatchIsNearest(cards, search, current);
    PreviousMatchIsNearest(cards, search, current);
  }

  /** Moving to the next match and back again returns to `current` when the
      card at `current` itself matches. */
  lemma NextThenPrevious(cards: seq<Card>, search: string, current: int)
    requires 0 <= current < |cards| && Matches(cards[current], search)
    requires NextMatch(cards, search, current) != -1
    ensures PreviousMatch(cards, search, NextMatch(cards, search, current)) == current
  {
    var r := NextMatch(cards, search, current);
    NextMatchIsNearest(cards, search, current);
    PreviousMatchIsNearest(cards, search, r);
  }

  /** `nextModalIndex`: scan forward from `current + 1`. */
  method NextModalIndex(cards: seq<Card>, search: string, current: int) returns (next: int)
    requires -1 <= current
    ensures next == NextMatch(cards, search, current)
  {
    var i := current + 1;
    while i < |cards|
      invariant current + 1 <= i
      invariant NextMatch(cards, search, current) == NextMatch(cards, search, i - 1)
      decreases |cards| - i
    {
      if Matches(cards[i], search) {
        return i;
      }
      i := i + 1;
    }
    return -1;
  }

  /** `previousModalIndex`: scan backward from `current - 1`. */
  method PreviousModalIndex(cards: seq<Card>, search: string, current: int) returns (previous: int)
    requires current <= |cards|
    ensures previous == PreviousMatch(cards, search, current)
  {
    var i := current - 1;
    while i >= 0
      invariant i <= current - 1
      invariant PreviousMatch(cards, search, current) == PreviousMatch(cards, search, i + 1)
      decreases i
    {
      if Matches(cards[i], search) {
        return i;
      }
      i := i - 1;
    }
    return -1;
  }
}
