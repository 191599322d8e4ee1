/** The display strings of an overlay: address, date of birth and cell number. */
module Formatting {
  import opened JsStrings

  /** `user.location` as the address line uses it; the street number and the
      postcode are taken as the text the template literal renders. */
  datatype Location = Location(
    streetNumber: string, streetName: string, city: string,
    state: string, country: string, postcode: string)

  /** The comma-separated layout shared by both branches of `buildAddress`. */
  function AddressLine(loc: Location, region: string): string
  {
    loc.streetNumber + " " + loc.streetName + ", " + loc.city + ", " + region + ", " + loc.postcode
  }

  /** `buildAddress`: the state for an address in the United States, the
      country otherwise, decided by exact comparison of the country. */
  function BuildAddress(loc: Location): string
  {
    if loc.country == "United States" then AddressLine(loc, loc.state) else AddressLine(loc, loc.country)
  }

  /** Two address lines of one location are equal only for equal regions. */
  lemma AddressLineInjective(loc: Location, a: string, b: string)
    requires AddressLine(loc, a) == AddressLine(loc, b)
    ensures a == b
  {
    var pre := loc.streetNumber + " " + loc.streetName + ", " + loc.city + ", ";
    var post := ", " + loc.postcode;
    assert AddressLine(loc, a) == pre + a + post;
    assert AddressLine(loc, b) == pre + b + post;
    assert |a| == |b|;
    assert (pre + a + post)[|pre|..|pre| + |a|] == a;
    assert (pre + b + post)[|pre|..|pre| + |b|] == b;
  }

  /** The address shows the state exactly when the country is the literal
      "United States" (for a location whose state and country differ). */
  lemma BuildAddressUsesStateIff(loc: Location)
    requires loc.state != loc.country
    ensures BuildAddress(loc) == AddressLine(loc, loc.state) <==> loc.country == "United States"
    ensures BuildAddress(loc) == AddressLine(loc, loc.country) <==> loc.country != "United States"
  {
    if BuildAddress(loc) == AddressLine(loc, loc.state) && loc.country != "United States" {
      AddressLineInjective(loc, loc.state, loc.country);
    }
    if BuildAddress(loc) == AddressLine(loc, loc.country) && loc.country == "United States" {
      AddressLineInjective(loc, loc.state, loc.country);
    }
  }

  /** Outside the United States the state is not shown at all. */
  lemma StateIgnoredAbroad(loc: Location, state: string)
    requires loc.country != "United States"
    ensures BuildAddress(loc.(state := state)) == BuildAddress(loc)
  {
  }

  /** The comparison is case-sensitive: "united states" shows the country. */
  lemma LowerCaseCountryIsAbroad(loc: Location)
    requires loc.country == "united states"
    ensures BuildAddress(loc) == AddressLine(loc, "united states")
  {
    assert loc.country[0] != "United States"[0];
  }

  /** `buildDOB`: month, day and year cut out of an ISO date string. */
  function BuildDOB(date: string): string
  {
    Substring(date, 5, 7) + "/" + Substring(date, 8, 10) + "/" + Substring(date, 0, 4)
  }

  /** For a date of at least ten characters the result has the MM/DD/YYYY shape. */
  lemma BuildDOBShape(date: string)
    requires |date| >= 10
    ensures var r := BuildDOB(date);
      && |r| == 10 && r[2] == '/' && r[5] == '/'
      && r[0..2] == date[5..7] && r[3..5] == date[8..10] && r[6..10] == date[0..4]
  {
  }

  /** An ISO date's "YYYY-MM-DD" prefix can be rebuilt from the result. */
  lemma BuildDOBRoundTrip(date: string)
    requires |date| >= 10 && date[4] == '-' && date[7] == '-'
    ensures var r := BuildDOB(date); r[6..10] + "-" + r[0..2] + "-" + r[3..5] == date[..10]
  {
    BuildDOBShape(date);
    var r := BuildDOB(date);
    assert date[..10] == date[0..4] + [date[4]] + date[5..7] + [date[7]] + date[8..10];
  }

  lemma BuildDOBExample()
    ensures BuildDOB("1990-05-14T00:00:00Z") == "05/14/1990"
  {
    BuildDOBShape("1990-05-14T00:00:00Z");
  }

  /** `formatCell`: the digits of the cell string, laid out as
      "(XXX) XXX-XXXX"; shorter digit strings leave shorter groups, as
      `substring` clamps its bounds. */
  function FormatCell(cell: string): string
  {
    var d := Digits(cell);
    "(" + Substring(d, 0, 3) + ") " + Substring(d, 3, 6) + "-" + Substring(d, 6, 10)
  }

  function Min(a: int, b: int): int
  {
    if a < b then a else b
  }

  /** The three groups together are the first (up to) ten digits. */
  lemma GroupsArePrefix(d: string)
    ensures Substring(d, 0, 3) + Substring(d, 3, 6) + Substring(d, 6, 10) == d[..Min(|d|, 10)]
  {
    var m := Min(|d|, 10);
    SubstringLength(d, 0, 3);
    SubstringLength(d, 3, 6);
    SubstringLength(d, 6, 10);
    if |d| <= 3 {
      assert Substring(d, 3, 6) == [] && Substring(d, 6, 10) == [];
      assert Substring(d, 0, 3) == d[0..|d|];
    } else if |d| <= 6 {
      assert Substring(d, 6, 10) == [];
      assert d[..m] == d[0..3] + d[3..|d|];
    } else if |d| <= 10 {
      assert d[..m] == d[0..3] + d[3..6] + d[6..|d|];
    } else {
      assert d[..m] == d[0..3] + d[3..6] + d[6..10];
    }
  }

  /** With ten or more digits the result is the full phone layout of the
      first ten digits, 14 characters long. */
  lemma FormatCellTenDigits(cell: string)
    requires |Digits(cell)| >= 10
    ensures var d := Digits(cell);
      FormatCell(cell) == "(" + d[0..3] + ") " + d[3..6] + "-" + d[6..10]
    ensures |FormatCell(cell)| == 14
  {
  }

  /** The result has four punctuation characters besides the digits it keeps. */
  lemma FormatCellLength(cell: string)
    ensures |FormatCell(cell)| == 4 + Min(|Digits(cell)|, 10)
  {
    GroupsArePrefix(Digits(cell));
  }

  /** Cutting a piece out of a digit string leaves a digit string. */
  lemma SubstringOfDigits(d: string, lo: int, hi: int)
    requires AllDigits(d)
    ensures AllDigits(Substring(d, lo, hi))
  {
  }

  /** Punctuation between the groups contributes no digits. */
  lemma DigitsAfterPunctuation(p: string, s: string)
    requires forall i :: 0 <= i < |p| ==> !IsDigit(p[i])
    ensures Digits(p + s) == Digits(s)
  {
    DigitsConcat(p, s);
    DigitsCount(p, '0');
    if Digits(p) != [] {
      assert Digits(p)[0] in multiset(Digits(p));
      DigitsCount(p, Digits(p)[0]);
    }
  }

  lemma DigitsOfNestedLayout(g1: string, g2: string, g3: string)
    requires AllDigits(g1) && AllDigits(g2) && AllDigits(g3)
    ensures Digits("(" + (g1 + (") " + (g2 + ("-" + g3))))) == g1 + (g2 + g3)
  {
    DigitsOfDigits(g1);
    DigitsOfDigits(g2);
    DigitsOfDigits(g3);
    DigitsAfterPunctuation("-", g3);
    DigitsConcat(g2, "-" + g3);
    DigitsAfterPunctuation(") ", g2 + ("-" + g3));
    DigitsConcat(g1, ") " + (g2 + ("-" + g3)));
    DigitsAfterPunctuation("(", g1 + (") " + (g2 + ("-" + g3))));
  }

  /** The phone layout adds punctuation only: its digits are those of the groups. */
  lemma DigitsOfLayout(g1: string, g2: string, g3: string)
    requires AllDigits(g1) && AllDigits(g2) && AllDigits(g3)
    ensures Digits("(" + g1 + ") " + g2 + "-" + g3) == g1 + g2 + g3
  {
    DigitsOfNestedLayout(g1, g2, g3);
    assert "(" + g1 + ") " + g2 + "-" + g3 == "(" + (g1 + (") " + (g2 + ("-" + g3))));
    assert g1 + g2 + g3 == g1 + (g2 + g3);
  }

  /** The digits of the result are the first (up to) ten digits of the input. */
  lemma FormatCellKeepsDigits(cell: string)
    ensures Digits(FormatCell(cell)) == Digits(cell)[..Min(|Digits(cell)|, 10)]
  {
    var d := Digits(cell);
    var g1, g2, g3 := Substring(d, 0, 3), Substring(d, 3, 6), Substring(d, 6, 10);
    GroupsArePrefix(d);
    DigitsAreDigits(cell);
    SubstringOfDigits(d, 0, 3);
    SubstringOfDigits(d, 3, 6);
    SubstringOfDigits(d, 6, 10);
    DigitsOfLayout(g1, g2, g3);
  }

  /** Formatting a formatted cell number changes nothing. */
  lemma FormatCellIdempotent(cell: string)
    ensures FormatCell(FormatCell(cell)) == FormatCell(cell)
  {
    var d := Digits(cell);
    FormatCellKeepsDigits(cell);
    SubstringOfPrefix(d, 0, 3, 10);
    SubstringOfPrefix(d, 3, 6, 10);
    SubstringOfPrefix(d, 6, 10, 10);
  }

  /** Digits, then punctuation, then the rest: the digits stay, the punctuation goes. */
  lemma DigitsSkipping(a: string, p: string, t: string)
    requires AllDigits(a)
    requires forall i :: 0 <= i < |p| ==> !IsDigit(p[i])
    ensures Digits(a + (p + t)) == a + Digits(t)
  {
    DigitsOfDigits(a);
    DigitsAfterPunctuation(p, t);
    DigitsConcat(a, p + t);
  }

  lemma DigitsOfExampleTail()
    ensures Digits("456" + ("-" + "7890")) == "4567890"
  {
    DigitsOfDigits("7890");
    DigitsSkipping("456", "-", "7890");
  }

  lemma DigitsOfNestedExampleCell()
    ensures Digits("+1 (" + ("123" + (") " + ("456" + ("-" + "7890"))))) == "1" + ("123" + "4567890")
  {
    DigitsOfExampleTail();
    DigitsSkipping("123", ") ", "456" + ("-" + "7890"));
    DigitsConcat("+1 (", "123" + (") " + ("456" + ("-" + "7890"))));
    DigitsOfCountryCode();
  }

  lemma DigitsOfCountryCode()
    ensures Digits("+1 (") == "1"
  {
    assert "+1 ("[1..] == "1 (";
    assert "1 ("[1..] == " (";
    assert " ("[1..] == "(";
    assert "("[1..] == "";
  }

  lemma DigitsOfExampleCell()
    ensures Digits("+1 (123) 456-7890") == "11234567890"
  {
    DigitsOfNestedExampleCell();
    assert "+1 (123) 456-7890" == "+1 (" + ("123" + (") " + ("456" + ("-" + "7890"))));
    assert "1" + ("123" + "4567890") == "11234567890";
  }

  /** The layout of a cell string depends only on its digits. */
  lemma FormatCellOfDigits(cell: string, d: string)
    requires Digits(cell) == d
    ensures FormatCell(cell) == "(" + Substring(d, 0, 3) + ") " + Substring(d, 3, 6) + "-" + Substring(d, 6, 10)
  {
  }

  lemma ExampleGroups()
    ensures "(" + Substring("11234567890", 0, 3) + ") " + Substring("11234567890", 3, 6) + "-"
            + Substring("11234567890", 6, 10) == "(112) 345-6789"
  {
    var d := "11234567890";
    assert d[0..3] == "112" && d[3..6] == "345" && d[6..10] == "6789";
  }

  /** The leading country code is a digit too, so it is kept. */
  lemma FormatCellExample()
    ensures FormatCell("+1 (123) 456-7890") == "(112) 345-6789"
  {
    DigitsOfExampleCell();
    FormatCellOfDigits("+1 (123) 456-7890", "11234567890");
    ExampleGroups();
  }

  lemma DigitsOfNestedShortCell()
    ensures Digits("555" + ("-" + "1234")) == "555" + "1234"
  {
    DigitsOfDigits("1234");
    DigitsSkipping("555", "-", "1234");
  }

  lemma DigitsOfShortCell()
    ensures Digits("555-1234") == "5551234"
  {
    DigitsOfNestedShortCell();
    assert "555-1234" == "555" + ("-" + "1234");
  }

  /** Fewer than ten digits leave the last group short. */
  lemma FormatCellShortExample()
    ensures FormatCell("555-1234") == "(555) 123-4"
  {
    DigitsOfShortCell();
    FormatCellOfDigits("555-1234", "5551234");
    ShortGroups();
  }

  lemma ShortGroups()
    ensures "(" + Substring("5551234", 0, 3) + ") " + Substring("5551234", 3, 6) + "-"
            + Substring("5551234", 6, 10) == "(555) 123-4"
  {
    var d := "5551234";
    assert d[0..3] == "555";
    assert d[3..6] == "123";
    assert d[6..7] == "4";
    assert Substring(d, 6, 10) == d[6..7];
  }
}
