/** The search filter of the gallery: which names a search text matches, and
    how the cards' visibility follows it. */
module Search {
  import opened JsStrings

  /** One entry of the card list: the two name fields used for matching. */
  datatype Card = Card(first: string, last: string)

  /** A name matches when the lowered search text is found in the lowered
      full name, written either without or with a space between its parts. */
  function NameMatches(first: string, last: string, search: string): bool
  {
    Includes(Lower(first + last), Lower(search)) || Includes(Lower(first + " " + last), Lower(search))
  }

  predicate Matches(card: Card, search: string)
  {
    NameMatches(card.first, card.last, search)
  }

  /** The match is a substring test, on either spelling of the full name. */
  lemma NameMatchesIsSubstring(first: string, last: string, search: string)
    ensures NameMatches(first, last, search) <==>
              Occurs(Lower(search), Lower(first) + Lower(last)) ||
              Occurs(Lower(search), Lower(first) + " " + Lower(last))
  {
    IncludesIsOccurs(Lower(first + last), Lower(search));
    IncludesIsOccurs(Lower(first + " " + last), Lower(search));
    LowerSpaced(first, last);
    LowerConcat(first, last);
  }

  lemma LowerSpaced(first: string, last: string)
    ensures Lower(first + " " + last) == Lower(first) + " " + Lower(last)
  {
    LowerConcat(first + " ", last);
    LowerConcat(first, " ");
    assert Lower(" ") == " ";
  }

  /** The empty search text matches every name. */
  lemma EmptySearchMatchesAll(first: string, last: string)
    ensures NameMatches(first, last, "")
  {
    NameMatchesIsSubstring(first, last, "");
    assert OccursAt("", Lower(first) + Lower(last), 0);
  }

  /** The letter case of the names and of the search text is irrelevant. */
  lemma NameMatchesIgnoresCase(first: string, last: string, search: string,
                               first': string, last': string, search': string)
    requires Lower(first) == Lower(first') && Lower(last) == Lower(last') && Lower(search) == Lower(search')
    ensures NameMatches(first, last, search) == NameMatches(first', last', search')
  {
    NameMatchesIsSubstring(first, last, search);
    NameMatchesIsSubstring(first', last', search');
  }

  /** Searching for the lowered text is the same as searching for the text. */
  lemma NameMatchesLoweredSearch(first: string, last: string, search: string)
    ensures NameMatches(first, last, Lower(search)) == NameMatches(first, last, search)
  {
    LowerIdempotent(search);
  }

  /** Any end of the first name followed by any start of the last name matches,
      with or without the space between them: "nedoe" and "ne doe" both match
      Jane Doe. */
  lemma AcrossTheSpaceMatches(first: string, last: string, i: nat, j: nat)
    requires i <= |first| && j <= |last|
    ensures NameMatches(first, last, first[i..] + last[..j])
    ensures NameMatches(first, last, first[i..] + " " + last[..j])
  {
    var lf, ll := Lower(first), Lower(last);
    LowerConcat(first[i..], last[..j]);
    LowerSpaced(first[i..], last[..j]);
    assert Lower(first[i..]) == lf[i..];
    assert Lower(last[..j]) == ll[..j];
    var s1 := lf[i..] + ll[..j];
    assert (lf + ll)[i..i + |s1|] == s1;
    assert OccursAt(s1, lf + ll, i);
    var s2 := lf[i..] + " " + ll[..j];
    assert (lf + " " + ll)[i..i + |s2|] == s2;
    assert OccursAt(s2, lf + " " + ll, i);
    NameMatchesIsSubstring(first, last, first[i..] + last[..j]);
    NameMatchesIsSubstring(first, last, first[i..] + " " + last[..j]);
  }

  /** Any piece of the last name alone matches. */
  lemma LastNamePieceMatches(first: string, last: string, i: nat, j: nat)
    requires i <= j <= |last|
    ensures NameMatches(first, last, last[i..j])
  {
    var lf, ll := Lower(first), Lower(last);
    LowerConcat(first, last);
    assert Lower(last[i..j]) == ll[i..j];
    assert (lf + ll)[|lf| + i..|lf| + i + (j - i)] == ll[i..j];
    assert OccursAt(ll[i..j], lf + ll, |lf| + i);
    NameMatchesIsSubstring(first, last, last[i..j]);
  }

  /** `filterGallery`: each card is shown exactly when its name matches the
      search text; `visible` stands for the cards' `style.display` being "". */
  method FilterGallery(cards: seq<Card>, search: string, visible: array<bool>)
    requires visible.Length == |cards|
    modifies visible
    ensures forall i :: 0 <= i < |cards| ==> visible[i] == Matches(cards[i], search)
  {
    for i := 0 to |cards|
      invariant forall k :: 0 <= k < i ==> visible[k] == Matches(cards[k], search)
    {
      visible[i] := Matches(cards[i], search);
    }
  }
}
