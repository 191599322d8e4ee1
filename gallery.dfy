/** The page state of the gallery: the cards with their visibility, the search
    text, and one detail overlay per card, of which at most one is attached to
    the page body at a time. */
module GalleryPage {
  import opened JsStrings
  import opened Search
  import opened Navigation

  /** The targets captured by one container of prev/next buttons when it was
      built; -1 marks a hidden button, which has no click handler. */
  datatype NavButtons = NavButtons(previous: int, next: int)

  datatype Direction = Prev | Next

  /** Targets of the buttons of overlay `k` point at other overlays, before and
      after `k` respectively. */
  ghost predicate TargetsOf(n: nat, k: int, b: NavButtons)
  {
    && (b.previous == -1 || 0 <= b.previous < k)
    && (b.next == -1 || k < b.next < n)
  }

  ghost predicate AtMostOneAttached(attached: seq<bool>)
  {
    forall i, j :: 0 <= i < |attached| && 0 <= j < |attached| && attached[i] && attached[j] ==> i == j
  }

  /** The attachment of `n` overlays where only overlay `k` is attached. */
  ghost function OnlyAttached(n: nat, k: int): (r: seq<bool>)
    ensures |r| == n
    ensures forall i :: 0 <= i < n ==> r[i] == (i == k)
  {
    seq(n, i => i == k)
  }

  /** The buttons overlay `k` gets when it is shown under search text `search`. */
  ghost function FreshButtons(cards: seq<Card>, search: string, k: int): NavButtons
    requires -1 <= k <= |cards|
  {
    NavButtons(PreviousMatch(cards, search, k), NextMatch(cards, search, k))
  }

  /** The fresh buttons of a shown overlay lead to the nearest matching card
      in each direction, and are hidden where there is none. */
  lemma FreshButtonsAreNearest(cards: seq<Card>, search: string, k: int)
    requires 0 <= k < |cards|
    ensures var b := FreshButtons(cards, search, k);
      && TargetsOf(|cards|, k, b)
      && (b.previous == -1 <==> NoMatchBetween(cards, search, -1, k))
      && (b.next == -1 <==> NoMatchBetween(cards, search, k, |cards|))
      && (b.previous != -1 ==> Matches(cards[b.previous], search) && NoMatchBetween(cards, search, b.previous, k))
      && (b.next != -1 ==> Matches(cards[b.next], search) && NoMatchBetween(cards, search, k, b.next))
  {
    PreviousMatchIsNearest(cards, search, k);
    NextMatchIsNearest(cards, search, k);
  }

  /** A single attached overlay satisfies the at-most-one invariant. */
  lemma OnlyAttachedIsAtMostOne(n: nat, k: int)
    ensures AtMostOneAttached(OnlyAttached(n, k))
  {
  }

  class Gallery {
    /** The first and last names of the loaded users, in fetch order. */
    const cards: seq<Card>
    /** The current value of the search input. */
    var search: string
    /** Card `i` is displayed. */
    const visible: array<bool>
    /** Overlay `i` is a child of the page body. */
    const attached: array<bool>
    /** The button containers overlay `i` holds, oldest first. */
    const buttons: array<seq<NavButtons>>

    ghost predicate Shaped()
      reads this
    {
      && visible.Length == |cards|
      && attached.Length == |cards|
      && buttons.Length == |cards|
      && visible != attached
    }

    ghost predicate TargetsInRange()
      reads this, buttons
    {
      forall i, c :: 0 <= i < buttons.Length && 0 <= c < |buttons[i]| ==> TargetsOf(|cards|, i, buttons[i][c])
    }

    ghost predicate Valid()
      reads this, visible, attached, buttons
    {
      && Shaped()
      && TargetsInRange()
      && (forall i :: 0 <= i < |cards| ==> visible[i] == Matches(cards[i], search))
      && AtMostOneAttached(attached[..])
      && (forall i :: 0 <= i < |cards| && attached[i] ==> |buttons[i]| > 0)
    }

    /** Builds the cards and overlays for the loaded users. The search text is
        whatever the input already holds, and the cards are filtered by it. */
    constructor (users: seq<Card>, pending: string)
      ensures Valid()
      ensures cards == users && search == pending
      ensures fresh(visible) && fresh(attached) && fresh(buttons)
      ensures forall i :: 0 <= i < |users| ==> !attached[i] && buttons[i] == []
    {
      cards := users;
      search := pending;
      visible := new bool[|users|];
      attached := new bool[|users|](_ => false);
      buttons := new seq<NavButtons>[|users|](_ => []);
      new;
      FilterGallery(users, pending, visible);
    }

    /** An input or submit event with the text `text` in the search box. */
    method SetSearchText(text: string)
      requires Valid()
      modifies this, visible
      ensures Valid()
      ensures search == text
      ensures forall i :: 0 <= i < |cards| ==> visible[i] == Matches(cards[i], text)
    {
      search := text;
      FilterGallery(cards, text, visible);
    }

    /** Submitting the form filters again with the unchanged text, which
        leaves every card as it was. */
    method Submit()
      requires Valid()
      modifies visible
      ensures Valid()
      ensures visible[..] == old(visible[..])
    {
      FilterGallery(cards, search, visible);
    }

    /** `addModalNavButtons`: appends a container whose prev/next targets are
        computed now, against the current search text. */
    method AddModalNavButtons(k: int)
      requires Shaped() && TargetsInRange() && 0 <= k < |cards|
      modifies buttons
      ensures TargetsInRange()
      ensures buttons[..] == old(buttons[..])[k := old(buttons[k]) + [FreshButtons(cards, search, k)]]
    {
      var next := NextModalIndex(cards, search, k);
      var previous := PreviousModalIndex(cards, search, k);
      buttons[k] := buttons[k] + [NavButtons(previous, next)];
    }

    /** `removeModalNavButtons`: drops the overlay's first container. It fails
        (the source throws) when the overlay holds none, or when it is not
        attached, since the buttons are then not found in the document. */
    method RemoveModalNavButtons(k: int) returns (ok: bool)
      requires Valid() && 0 <= k < |cards|
      modifies buttons
      ensures ok == old(attached[k])
      ensures TargetsInRange()
      ensures ok ==> buttons[..] == old(buttons[..])[k := old(buttons[k])[1..]]
      ensures !ok ==> buttons[..] == old(buttons[..])
    {
      ok := attached[k] && |buttons[k]| > 0;
      if ok {
        buttons[k] := buttons[k][1..];
      }
    }

    /** The close handler of overlay `k`: remove its buttons, then detach it. */
    method CloseModal(k: int) returns (ok: bool)
      requires Valid() && 0 <= k < |cards|
      modifies attached, buttons
      ensures Valid()
      ensures ok == old(attached[k])
      ensures ok ==> attached[..] == OnlyAttached(|cards|, -1)
      ensures ok ==> buttons[..] == old(buttons[..])[k := old(buttons[k])[1..]]
      ensures !ok ==> attached[..] == old(attached[..]) && buttons[..] == old(buttons[..])
    {
      ok := RemoveModalNavButtons(k);
      if ok {
        attached[k] := false;
      }
    }

    /** `showModalFor`: attach overlay `k`, give it fresh buttons, then detach
        every other overlay. */
    method ShowModalFor(k: int)
      requires Valid() && 0 <= k < |cards|
      modifies attached, buttons
      ensures Valid()
      ensures attached[..] == OnlyAttached(|cards|, k)
      ensures buttons[..] == old(buttons[..])[k := old(buttons[k]) + [FreshButtons(cards, search, k)]]
    {
      attached[k] := true;
      AddModalNavButtons(k);
      ghost var before := attached[..];
      var i := 0;
      while i < attached.Length
        modifies attached
        invariant 0 <= i <= attached.Length
        invariant attached[k]
        invariant forall j :: 0 <= j < i ==> attached[j] == (j == k)
        invariant forall j :: i <= j < attached.Length ==> attached[j] == before[j]
      {
        if i != k && attached[i] {
          attached[i] := false;
        }
        i := i + 1;
      }
      OnlyAttachedIsAtMostOne(|cards|, k);
    }

    /** A click on the prev or next button of container `c` of overlay `k`:
        nothing happens for a hidden button; otherwise the overlay is closed
        and the target captured when the container was built is shown. */
    method ClickNav(k: int, c: int, dir: Direction) returns (ok: bool)
      requires Valid() && 0 <= k < |cards| && 0 <= c < |buttons[k]|
      modifies attached, buttons
      ensures Valid()
      ensures var b := old(buttons[k][c]);
        var target := if dir == Prev then b.previous else b.next;
        && ok == (target != -1 && old(attached[k]))
        && (ok ==> && attached[..] == OnlyAttached(|cards|, target)
                   && buttons[..] == old(buttons[..])[k := old(buttons[k])[1..]]
                                                     [target := old(buttons[target]) + [FreshButtons(cards, search, target)]])
        && (!ok ==> attached[..] == old(attached[..]) && buttons[..] == old(buttons[..]))
    {
      var b := buttons[k][c];
      var target := if dir == Prev then b.previous else b.next;
      assert TargetsOf(|cards|, k, b);
      if target < 0 {
        return false;
      }
      ok := CloseModal(k);
      if ok {
        ShowModalFor(target);
      }
    }
  }

  /** A search text longer than the spaced full name matches nothing. */
  lemma LongSearchMatchesNothing(first: string, last: string, search: string)
    requires |search| > |first| + |last| + 1
    ensures !NameMatches(first, last, search)
  {
    NameMatchesIsSubstring(first, last, search);
    assert forall i :: !OccursAt(Lower(search), Lower(first) + Lower(last), i);
    assert forall i :: !OccursAt(Lower(search), Lower(first) + " " + Lower(last), i);
  }

  /** `buildGallery` as written: every card it adds is displayed, whatever
      the search input already holds. */
  function LoadedVisibility(users: seq<Card>): seq<bool>
  {
    seq(|users|, i => true)
  }

  /** Text typed while the users were still being fetched is ignored by the
      cards built afterwards: "Christopher" hides Jane Doe only once the user
      types again. */
  lemma LoadIgnoresPendingSearch()
    ensures var users := [Card("Jane", "Doe")];
      LoadedVisibility(users)[0] && !Matches(users[0], "Christopher")
  {
    LongSearchMatchesNothing("Jane", "Doe", "Christopher");
  }

  /** "smith" matches every card whose last name is Smith. */
  lemma SmithMatches(first: string)
    ensures Matches(Card(first, "Smith"), "smith")
  {
    LastNamePieceMatches(first, "Smith", 0, 5);
    assert "Smith"[0..5] == "Smith";
    assert Lower("Smith") == "smith" == Lower("smith");
    NameMatchesIgnoresCase(first, "Smith", "Smith", first, "Smith", "smith");
  }

  /** "smith" does not match Bob Jones: no 's' starts a long enough tail. */
  lemma JonesDoesNotMatchSmith()
    ensures !Matches(Card("Bob", "Jones"), "smith")
  {
    NameMatchesIsSubstring("Bob", "Jones", "smith");
    assert Lower("smith") == "smith";
    assert Lower("Bob") + Lower("Jones") == "bobjones";
    assert Lower("Bob") + " " + Lower("Jones") == "bob jones";
    forall i ensures !OccursAt("smith", "bobjones", i) {
      if 0 <= i <= 3 {
        assert "bobjones"[i..i + 5][0] == "bobjones"[i] != 's';
      }
    }
    forall i ensures !OccursAt("smith", "bob jones", i) {
      if 0 <= i <= 4 {
        assert "bob jones"[i..i + 5][0] == "bob jones"[i] != 's';
      }
    }
  }

  /** Under "smith", next from Alice skips Bob and lands on Cara, prev from
      Cara returns to Alice, and nothing follows Cara. */
  lemma SmithNavigation()
    ensures var cards := [Card("Alice", "Smith"), Card("Bob", "Jones"), Card("Cara", "Smith")];
      && NextMatch(cards, "smith", 0) == 2
      && PreviousMatch(cards, "smith", 2) == 0
      && NextMatch(cards, "smith", 2) == -1
  {
    SmithMatches("Alice");
    SmithMatches("Cara");
    JonesDoesNotMatchSmith();
  }

  /** The whole story on the page: type "smith", open Alice, click next. */
  method SmithScenario()
  {
    var g := new Gallery([Card("Alice", "Smith"), Card("Bob", "Jones"), Card("Cara", "Smith")], "");
    g.SetSearchText("smith");
    SmithMatches("Alice");
    SmithMatches("Cara");
    JonesDoesNotMatchSmith();
    SmithNavigation();
    assert g.visible[0] && !g.visible[1] && g.visible[2];
    g.ShowModalFor(0);
    assert g.attached[..] == [true, false, false];
    assert g.buttons[0] == [NavButtons(-1, 2)];
    var ok := g.ClickNav(0, 0, Next);
    assert ok;
    assert g.attached[..] == [false, false, true];
    assert g.buttons[0] == [];
    assert g.buttons[2] == [NavButtons(0, -1)];
    ok := g.ClickNav(2, 0, Next);
    assert !ok;
    ok := g.ClickNav(2, 0, Prev);
    assert ok && g.attached[0];
  }
}
