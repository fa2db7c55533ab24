/**
 * Language-code normalisation: the language part in lower case and an
 * optional regional variant, after the first '-', in upper case.
 */
module LanguageCode {
  import opened Text

  /**
   * String.split("-", 2): the whole code when it has no '-', otherwise the
   * part before the first '-' and everything after it (trailing empty part
   * kept, as a positive limit does).
   */
  function SplitAtFirstDash(code: string): (parts: seq<string>)
    ensures 1 <= |parts| <= 2
    ensures |parts| == 1 <==> '-' !in code
    ensures |parts| == 1 ==> parts[0] == code
    ensures |parts| == 2 ==> parts[0] + "-" + parts[1] == code && '-' !in parts[0]
    decreases |code|
  {
    if |code| == 0 then [code]
    else if code[0] == '-' then ["", code[1..]]
    else
      var rest := SplitAtFirstDash(code[1..]);
      if |rest| == 1 then [code] else [[code[0]] + rest[0], rest[1]]
  }

  /** removeRegionalVariant: the lower-cased part before the first '-'. */
  function RemoveRegionalVariant(code: string): string {
    Lower(SplitAtFirstDash(code)[0])
  }

  /** standardize: lower-case the language part, upper-case the regional variant if any. */
  function Standardize(code: string): string {
    var parts := SplitAtFirstDash(code);
    if |parts| == 1 then Lower(parts[0]) else Lower(parts[0]) + "-" + Upper(parts[1])
  }

  /** The index of the first '-' in a code that has one. */
  lemma FirstDash(code: string, i: nat)
    requires i < |code| && code[i] == '-' && '-' !in code[..i]
    ensures SplitAtFirstDash(code) == [code[..i], code[i + 1..]]
  {
    var parts := SplitAtFirstDash(code);
    assert '-' in code by { assert code[i] == '-'; }
    var p := parts[0];
    assert code == p + "-" + parts[1];
    assert code[|p|] == '-';
    assert forall j :: 0 <= j < i ==> code[..i][j] == code[j];
    assert forall j :: 0 <= j < |p| ==> p[j] == code[j];
    assert |p| == i;
    assert code[..i] == p;
  }

  /** A code with no '-' standardises to its lower-cased self. */
  lemma StandardizeWithoutDash(code: string)
    requires '-' !in code
    ensures Standardize(code) == Lower(code)
    ensures RemoveRegionalVariant(code) == Lower(code)
  {
  }

  /**
   * A code whose first '-' is at index i standardises to the lower-cased part
   * before it, a '-', and the upper-cased rest; a later '-' does not split.
   */
  lemma StandardizeWithDash(code: string, i: nat)
    requires i < |code| && code[i] == '-' && '-' !in code[..i]
    ensures Standardize(code) == Lower(code[..i]) + "-" + Upper(code[i + 1..])
    ensures RemoveRegionalVariant(code) == Lower(code[..i])
  {
    FirstDash(code, i);
  }

  /** The result of removeRegionalVariant never contains a '-'. */
  lemma RemoveRegionalVariantHasNoDash(code: string)
    ensures '-' !in RemoveRegionalVariant(code)
  {
    var p := SplitAtFirstDash(code)[0];
    LowerFacts(p);
    forall j | 0 <= j < |Lower(p)|
      ensures Lower(p)[j] != '-'
    {
      assert p[j] != '-';
    }
  }

  /** The standardised code splits into the lower-cased language part and the upper-cased rest. */
  lemma SplitOfStandardized(code: string)
    ensures var parts := SplitAtFirstDash(code);
      SplitAtFirstDash(Standardize(code)) ==
        if |parts| == 1 then [Lower(parts[0])] else [Lower(parts[0]), Upper(parts[1])]
  {
    var parts := SplitAtFirstDash(code);
    LowerFacts(parts[0]);
    var lp := Lower(parts[0]);
    assert '-' !in lp by {
      forall j | 0 <= j < |lp|
        ensures lp[j] != '-'
      {
        assert parts[0][j] != '-';
      }
    }
    if |parts| == 1 {
      assert SplitAtFirstDash(lp) == [lp];
    } else {
      var s := lp + "-" + Upper(parts[1]);
      assert s[|lp|] == '-' && s[..|lp|] == lp && s[|lp| + 1..] == Upper(parts[1]);
      FirstDash(s, |lp|);
    }
  }

  /** Standardising twice changes nothing. */
  lemma StandardizeIdempotent(code: string)
    ensures Standardize(Standardize(code)) == Standardize(code)
  {
    SplitOfStandardized(code);
    var parts := SplitAtFirstDash(code);
    LowerFacts(parts[0]);
    if |parts| == 2 {
      UpperFacts(parts[1]);
    }
  }

  /** Standardising first does not change which language remains without the regional variant. */
  lemma RemoveRegionalVariantOfStandardized(code: string)
    ensures RemoveRegionalVariant(Standardize(code)) == RemoveRegionalVariant(code)
  {
    SplitOfStandardized(code);
    LowerFacts(SplitAtFirstDash(code)[0]);
  }

  /** Mixed-case codes from the library's expectations: "EN-us" becomes "en-US", "dE" becomes "de". */
  lemma StandardizeExamples()
    ensures Standardize("EN-us") == "en-US"
    ensures Standardize("dE") == "de"
  {
    StandardizeWithDash("EN-us", 2);
    assert "EN-us"[..2] == "EN" && "EN-us"[3..] == "us";
    StandardizeWithoutDash("dE");
  }
}
