/** The TSV codec on the inputs the library's own expectations are phrased in. */
module GlossaryExamples {
  import opened Wrappers
  import opened Text
  import opened Errors
  import opened Glossary

  /** Two break-free lines joined by "\n", the second not empty, are the two lines fromTsv walks. */
  lemma TwoLines(first: string, second: string)
    requires !HasLineBreak(first) && !HasLineBreak(second) && second != ""
    ensures TsvInputLines(first + "\n" + second) == [first, second]
  {
    JoinAppend([first], second, "\n");
    SplitLinesJoin([first, second]);
  }

  lemma ExampleTerms()
    ensures IsCanonicalTerm("apple") && IsCanonicalTerm("Apfel")
    ensures IsCanonicalTerm("crab apple") && IsCanonicalTerm("Holzapfel")
  {
    TrimKeeps("apple");
    TrimKeeps("Apfel");
    TrimKeeps("crab apple");
    TrimKeeps("Holzapfel");
  }

  lemma ExampleLines(tsv: string)
    requires tsv == "apple\tApfel\n crab apple \t Holzapfel "
    ensures TsvInputLines(tsv) == ["apple\tApfel", " crab apple \t Holzapfel "]
  {
    var first, second := "apple\tApfel", " crab apple \t Holzapfel ";
    ExampleJoined(tsv);
    NoBreakIn(first);
    NoBreakIn(second);
    TwoLines(first, second);
  }

  lemma ExampleJoined(tsv: string)
    requires tsv == "apple\tApfel\n crab apple \t Holzapfel "
    ensures tsv == "apple\tApfel" + "\n" + " crab apple \t Holzapfel "
  {
  }

  lemma NoBreakIn(s: string)
    requires s == "apple\tApfel" || s == " crab apple \t Holzapfel "
    ensures !HasLineBreak(s)
  {
  }

  lemma ExampleFirstLine(first: string)
    requires first == "apple\tApfel"
    ensures ParseLine(first, 1, map[]) == Success(map["apple" := "Apfel"])
  {
    ExampleTerms();
    assert first == "" + "apple" + "" + "\t" + "" + "Apfel" + "";
    ParsePaddedLine("", "apple", "", "", "Apfel", "", 1, map[]);
  }

  lemma ExampleSecondLine(second: string, one: map<string, string>)
    requires second == " crab apple \t Holzapfel " && one == map["apple" := "Apfel"]
    ensures ParseLine(second, 2, one) == Success(one["crab apple" := "Holzapfel"])
  {
    ExampleTerms();
    assert second == " " + "crab apple" + " " + "\t" + " " + "Holzapfel" + " ";
    ParsePaddedLine(" ", "crab apple", " ", " ", "Holzapfel", " ", 2, one);
  }

  /** Blanks around terms are trimmed and the two lines give two entries. */
  lemma ParseExample(tsv: string)
    requires tsv == "apple\tApfel\n crab apple \t Holzapfel "
    ensures ParseTsv(tsv) == Success(map["apple" := "Apfel", "crab apple" := "Holzapfel"])
  {
    var first, second := "apple\tApfel", " crab apple \t Holzapfel ";
    ExampleLines(tsv);
    var lines := [first, second];
    var one := map["apple" := "Apfel"];
    var two := one["crab apple" := "Holzapfel"];
    ExampleFirstLine(first);
    ExampleSecondLine(second, one);
    assert ParseLines(lines, 2, two) == Success(two);
    assert ParseLines(lines, 1, one) == Success(two);
    assert ParseLines(lines, 0, map[]) == Success(two);
    assert two == map["apple" := "Apfel", "crab apple" := "Holzapfel"];
  }

  /** The empty string holds no entry. */
  lemma EmptyTsvRejected()
    ensures ParseTsv("") == Failure(IllegalArgument(NoValidEntries))
  {
    assert TsvInputLines("") == [""];
  }

  /** A line with no line break is the only line of its input. */
  lemma SingleLine(s: string)
    requires !HasLineBreak(s)
    ensures TsvInputLines(s) == [s]
  {
    SplitLinesNoBreak(s);
    JavaSplitKeeps([s]);
  }

  lemma TwoTabs(s: string)
    requires s == "A\tB\tC"
    ensures Trim(s) == s && |Fields(s)| == 3
  {
    TrimKeeps(s);
    assert multiset(s) == multiset{'A', '\t', 'B', '\t', 'C'};
    assert Count(s, '\t') == 2;
    FieldsCount(s);
  }

  /** A line with two tabs is rejected with its line number. */
  lemma ExtraSeparatorRejected()
    ensures ParseTsv("A\tB\tC") == Failure(IllegalArgument(ExtraTermSeparator(1, "A\tB\tC")))
  {
    var s := "A\tB\tC";
    assert !HasLineBreak(s);
    SingleLine(s);
    TwoTabs(s);
    assert ParseLine(s, 1, map[]) == Failure(IllegalArgument(ExtraTermSeparator(1, s)));
    assert ParseLines([s], 0, map[]) == ParseLine(s, 1, map[]);
  }

  /** "A\t " trims to "A": the tab is stripped with the trailing blank and no separator remains. */
  lemma TrailingTabRejected()
    ensures ParseTsv("A\t ") == Failure(IllegalArgument(NoTermSeparator(1, "A")))
  {
    var s := "A\t ";
    assert !HasLineBreak(s);
    SingleLine(s);
    assert Trim(s) == "A" by {
      assert s == "" + "A" + "\t ";
      TrimPadded("", "A", "\t ");
    }
    SplitOnNoSep("A", '\t');
    assert ParseLine(s, 1, map[]) == Failure(IllegalArgument(NoTermSeparator(1, "A")));
    assert ParseLines([s], 0, map[]) == ParseLine(s, 1, map[]);
  }

  lemma DuplicateLines(tsv: string)
    requires tsv == "Küche\tKitchen\nKüche\tCuisine"
    ensures TsvInputLines(tsv) == ["Küche\tKitchen", "Küche\tCuisine"]
  {
    var first, second := "Küche\tKitchen", "Küche\tCuisine";
    assert tsv == first + "\n" + second;
    assert !HasLineBreak(first) && !HasLineBreak(second);
    TwoLines(first, second);
  }

  lemma DuplicateTerms()
    ensures IsCanonicalTerm("Küche") && IsCanonicalTerm("Kitchen") && IsCanonicalTerm("Cuisine")
  {
    TrimKeeps("Küche");
    TrimKeeps("Kitchen");
    TrimKeeps("Cuisine");
  }

  lemma DuplicateFirstLine(line: string)
    requires line == "Küche\tKitchen"
    ensures ParseLine(line, 1, map[]) == Success(map["Küche" := "Kitchen"])
  {
    DuplicateTerms();
    assert line == "" + "Küche" + "" + "\t" + "" + "Kitchen" + "";
    ParsePaddedLine("", "Küche", "", "", "Kitchen", "", 1, map[]);
  }

  lemma DuplicateSecondLine(line: string, one: map<string, string>)
    requires line == "Küche\tCuisine" && one == map["Küche" := "Kitchen"]
    ensures ParseLine(line, 2, one) == Failure(IllegalArgument(DuplicateSourceTerm(2, "Küche")))
  {
    DuplicateTerms();
    assert line == "" + "Küche" + "" + "\t" + "" + "Cuisine" + "";
    ParsePaddedLine("", "Küche", "", "", "Cuisine", "", 2, one);
  }

  /** A source term repeated on line 2 is an error naming line 2, not an overwrite. */
  lemma DuplicateRejected(tsv: string)
    requires tsv == "Küche\tKitchen\nKüche\tCuisine"
    ensures ParseTsv(tsv) == Failure(IllegalArgument(DuplicateSourceTerm(2, "Küche")))
  {
    DuplicateLines(tsv);
    var lines := ["Küche\tKitchen", "Küche\tCuisine"];
    var one := map["Küche" := "Kitchen"];
    DuplicateFirstLine(lines[0]);
    DuplicateSecondLine(lines[1], one);
    assert ParseLines(lines, 1, one) == Failure(IllegalArgument(DuplicateSourceTerm(2, "Küche")));
  }

  /** A map whose target term holds a tab cannot be put into a GlossaryEntries. */
  lemma TabInTargetRejected()
    ensures !AllValid(map["A" := "B\tC"])
  {
    InteriorTabRejected();
    assert "A" in map["A" := "B\tC"];
  }
}
