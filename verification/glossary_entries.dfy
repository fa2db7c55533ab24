/**
 * GlossaryEntries: a map from source terms to target terms whose inserts are
 * validated, with its tab-separated-value (TSV) parser and serialiser.
 */
module Glossary {
  import opened Wrappers
  import opened Text
  import opened Errors

  // ---------------------------------------------------------------------------
  // Trimming

  /** The only characters trimWhitespace strips: space and tab. */
  predicate IsBlank(c: char) { c == ' ' || c == '\t' }

  predicate AllBlank(s: string) { forall i :: 0 <= i < |s| ==> IsBlank(s[i]) }

  /** The index of the first non-blank character of `s` at or after `i`; |s| when there is none. */
  function SkipLeading(s: string, i: nat): (r: nat)
    requires i <= |s|
    ensures i <= r <= |s|
    decreases |s| - i
  {
    if i < |s| && IsBlank(s[i]) then SkipLeading(s, i + 1) else i
  }

  /** The end of s[lo..hi] once its trailing blanks are dropped. */
  function SkipTrailing(s: string, lo: nat, hi: nat): (r: nat)
    requires lo <= hi <= |s|
    ensures lo <= r <= hi
    decreases hi
  {
    if lo < hi && IsBlank(s[hi - 1]) then SkipTrailing(s, lo, hi - 1) else hi
  }

  /** SkipLeading passes over blanks only and stops at a non-blank character or the end. */
  lemma {:induction false} SkipLeadingFacts(s: string, i: nat)
    requires i <= |s|
    ensures forall j :: i <= j < SkipLeading(s, i) ==> IsBlank(s[j])
    ensures SkipLeading(s, i) < |s| ==> !IsBlank(s[SkipLeading(s, i)])
    decreases |s| - i
  {
    if i < |s| && IsBlank(s[i]) {
      SkipLeadingFacts(s, i + 1);
    }
  }

  /** SkipTrailing passes back over blanks only and stops after a non-blank character or at `lo`. */
  lemma {:induction false} SkipTrailingFacts(s: string, lo: nat, hi: nat)
    requires lo <= hi <= |s|
    ensures forall j :: SkipTrailing(s, lo, hi) <= j < hi ==> IsBlank(s[j])
    ensures SkipTrailing(s, lo, hi) > lo ==> !IsBlank(s[SkipTrailing(s, lo, hi) - 1])
    decreases hi
  {
    if lo < hi && IsBlank(s[hi - 1]) {
      SkipTrailingFacts(s, lo, hi - 1);
    }
  }

  /** The specification of trimWhitespace: blanks removed from both ends. */
  function Trim(s: string): (r: string)
    ensures |r| <= |s|
    ensures r == [] || (!IsBlank(r[0]) && !IsBlank(r[|r| - 1]))
  {
    var lo := SkipLeading(s, 0);
    SkipLeadingFacts(s, 0);
    SkipTrailingFacts(s, lo, |s|);
    s[lo..SkipTrailing(s, lo, |s|)]
  }

  /** Blanks before `k` and a non-blank character (or the end) at `k`: `k` is where the leading blanks end. */
  lemma LeadingEndsAt(s: string, k: nat)
    requires k <= |s|
    requires forall j :: 0 <= j < k ==> IsBlank(s[j])
    requires k < |s| ==> !IsBlank(s[k])
    ensures SkipLeading(s, 0) == k
  {
    SkipLeadingFacts(s, 0);
  }

  /** A non-blank character at `k` with only blanks after it up to `hi`: the trailing blanks start at k + 1. */
  lemma TrailingStartsAfter(s: string, lo: nat, hi: nat, k: nat)
    requires lo <= k < hi <= |s|
    requires !IsBlank(s[k])
    requires forall j :: k < j < hi ==> IsBlank(s[j])
    ensures SkipTrailing(s, lo, hi) == k + 1
  {
    SkipTrailingFacts(s, lo, hi);
  }

  /**
   * The trimmed string is a contiguous slice of the input, and everything cut
   * off on either side of it is blank.
   */
  lemma TrimSlice(s: string) returns (lo: nat, hi: nat)
    ensures lo <= hi <= |s| && Trim(s) == s[lo..hi]
    ensures forall i :: 0 <= i < lo ==> IsBlank(s[i])
    ensures forall i :: hi <= i < |s| ==> IsBlank(s[i])
  {
    lo := SkipLeading(s, 0);
    hi := SkipTrailing(s, lo, |s|);
    SkipLeadingFacts(s, 0);
    SkipTrailingFacts(s, lo, |s|);
    forall i | hi <= i < |s|
      ensures IsBlank(s[i])
    {
    }
  }

  /** Trimming gives "" exactly when the input is all blanks. */
  lemma TrimEmpty(s: string)
    ensures Trim(s) == [] <==> AllBlank(s)
  {
    var lo, hi := TrimSlice(s);
    if Trim(s) == [] {
      forall i | 0 <= i < |s|
        ensures IsBlank(s[i])
      {
        if lo <= i < hi {
          assert false;
        }
      }
    } else {
      assert !IsBlank(s[lo]);
    }
  }

  /** A slice with blanks outside it and non-blank ends is what Trim returns. */
  lemma TrimIsSlice(s: string, lo: nat, hi: nat)
    requires lo < hi <= |s|
    requires AllBlank(s[..lo]) && AllBlank(s[hi..])
    requires !IsBlank(s[lo]) && !IsBlank(s[hi - 1])
    ensures Trim(s) == s[lo..hi]
  {
    forall j | 0 <= j < lo
      ensures IsBlank(s[j])
    {
      assert s[..lo][j] == s[j];
    }
    LeadingEndsAt(s, lo);
    forall j | hi - 1 < j < |s|
      ensures IsBlank(s[j])
    {
      assert s[hi..][j - hi] == s[j];
    }
    TrailingStartsAfter(s, lo, |s|, hi - 1);
  }

  /** A string with non-blank ends (or none at all) is left as it is. */
  lemma TrimKeeps(s: string)
    requires s == [] || (!IsBlank(s[0]) && !IsBlank(s[|s| - 1]))
    ensures Trim(s) == s
  {
    if s != [] {
      assert s[..0] == [] && s[|s|..] == [] && s[0..|s|] == s;
      TrimIsSlice(s, 0, |s|);
    }
  }

  /** trimWhitespace: advance `left` past leading blanks, then pull `right` back past trailing ones. */
  method TrimWhitespace(input: string) returns (r: string)
    ensures r == Trim(input)
  {
    var left := 0;
    while left < |input| && IsBlank(input[left])
      invariant 0 <= left <= |input|
      invariant forall j :: 0 <= j < left ==> IsBlank(input[j])
    {
      left := left + 1;
    }
    LeadingEndsAt(input, left);
    if left >= |input| {
      return "";
    }
    var right := |input| - 1;
    while left < right && IsBlank(input[right])
      invariant left <= right < |input|
      invariant forall j :: right < j < |input| ==> IsBlank(input[j])
    {
      right := right - 1;
    }
    TrailingStartsAfter(input, left, |input|, right);
    r := input[left..right + 1];
  }

  // ---------------------------------------------------------------------------
  // Term validation

  /** C0 and C1 control characters and the Unicode line and paragraph separators. */
  predicate IsInvalidTermChar(c: char) {
    c as int <= 31 || (128 <= c as int <= 159) || c == '\U{2028}' || c == '\U{2029}'
  }

  /** The index of the first invalid character of `t`, or |t| when there is none. */
  function FirstInvalid(t: string): (r: nat)
    ensures r <= |t|
    ensures forall j :: 0 <= j < r ==> !IsInvalidTermChar(t[j])
    ensures r < |t| ==> IsInvalidTermChar(t[r])
    decreases |t|
  {
    if |t| == 0 then 0
    else if IsInvalidTermChar(t[0]) then 0
    else 1 + FirstInvalid(t[1..])
  }

  /** A term is valid when its trimmed form is non-empty and has no invalid character. */
  predicate IsValidTerm(term: string) {
    var t := Trim(term);
    t != [] && forall i :: 0 <= i < |t| ==> !IsInvalidTermChar(t[i])
  }

  /** The specification of validateGlossaryTerm: which exception, if any, it throws. */
  function CheckTerm(term: string): (o: Outcome<Error>)
    ensures o.Pass? <==> IsValidTerm(term)
    ensures Trim(term) == [] ==> o == Fail(IllegalArgument(TermWithoutContent(term)))
    ensures o.Fail? && Trim(term) != [] ==>
      exists i :: 0 <= i < |Trim(term)| && IsInvalidTermChar(Trim(term)[i]) &&
        o == Fail(IllegalArgument(TermInvalidChar(term, Trim(term)[i])))
  {
    var t := Trim(term);
    if t == [] then Fail(IllegalArgument(TermWithoutContent(term)))
    else
      var i := FirstInvalid(t);
      if i < |t| then Fail(IllegalArgument(TermInvalidChar(term, t[i]))) else Pass
  }

  /** validateGlossaryTerm: trim, reject an empty term, then scan for the first invalid character. */
  method ValidateGlossaryTerm(term: string) returns (o: Outcome<Error>)
    ensures o == CheckTerm(term)
  {
    var termTrimmed := TrimWhitespace(term);
    if termTrimmed == [] {
      return Fail(IllegalArgument(TermWithoutContent(term)));
    }
    var i := 0;
    while i < |termTrimmed|
      invariant 0 <= i <= |termTrimmed|
      invariant forall j :: 0 <= j < i ==> !IsInvalidTermChar(termTrimmed[j])
    {
      var ch := termTrimmed[i];
      if IsInvalidTermChar(ch) {
        assert FirstInvalid(termTrimmed) == i;
        return Fail(IllegalArgument(TermInvalidChar(term, ch)));
      }
      i := i + 1;
    }
    return Pass;
  }

  /** A valid term has no tab and no line break between its first and last visible characters. */
  lemma ValidTermHasNoSeparator(term: string)
    requires IsValidTerm(term)
    ensures '\t' !in Trim(term) && !HasLineBreak(Trim(term))
  {
    var t := Trim(term);
    forall i | 0 <= i < |t|
      ensures t[i] != '\t' && t[i] != '\n' && t[i] != '\r'
    {
      assert !IsInvalidTermChar(t[i]);
    }
  }

  /** A tab inside a term, as in "B\tC", makes it invalid. */
  lemma InteriorTabRejected()
    ensures CheckTerm("B\tC") == Fail(IllegalArgument(TermInvalidChar("B\tC", '\t')))
  {
    var t := "B\tC";
    assert Trim(t) == t;
    assert FirstInvalid(t) == 1 by {
      assert t[1..] == "\tC";
    }
  }

  // ---------------------------------------------------------------------------
  // Maps of entries

  /** Every key and value of `m` is a valid term: what `put` guarantees of the entries it stores. */
  predicate AllValid(m: map<string, string>) {
    forall k :: k in m ==> IsValidTerm(k) && IsValidTerm(m[k])
  }

  /** A term as it reads back from TSV: valid, and with no blanks at either end. */
  predicate IsCanonicalTerm(term: string) { IsValidTerm(term) && Trim(term) == term }

  predicate AllCanonical(m: map<string, string>) {
    forall k :: k in m ==> IsCanonicalTerm(k) && IsCanonicalTerm(m[k])
  }

  /** `order` lists each key of `keys` exactly once: one possible HashMap iteration order. */
  predicate IsEnumeration(order: seq<string>, keys: set<string>) {
    (forall i :: 0 <= i < |order| ==> order[i] in keys) &&
    (forall k :: k in keys ==> k in order) &&
    (forall i, j :: 0 <= i < j < |order| ==> order[i] != order[j])
  }

  // ---------------------------------------------------------------------------
  // TSV rendering

  function TsvLine(m: map<string, string>, k: string): string
    requires k in m
  {
    k + "\t" + m[k]
  }

  function TsvLines(m: map<string, string>, order: seq<string>): (lines: seq<string>)
    requires forall i :: 0 <= i < |order| ==> order[i] in m
    ensures |lines| == |order|
  {
    seq(|order|, i requires 0 <= i < |order| => TsvLine(m, order[i]))
  }

  /** The specification of toTsv for one iteration order: one "key\tvalue" line per key, joined by "\n". */
  function Render(m: map<string, string>, order: seq<string>): string
    requires forall i :: 0 <= i < |order| ==> order[i] in m
  {
    Join(TsvLines(m, order), "\n")
  }

  /** Rendering one more key appends its line, after a line break unless it is the first. */
  lemma RenderSnoc(m: map<string, string>, order: seq<string>, k: string)
    requires forall i :: 0 <= i < |order| ==> order[i] in m
    requires k in m
    ensures |Render(m, order)| > 0 <==> |order| > 0
    ensures Render(m, order + [k]) == (if |order| > 0 then Render(m, order) + "\n" else "") + k + "\t" + m[k]
  {
    var lines, line := TsvLines(m, order), TsvLine(m, k);
    assert TsvLines(m, order + [k]) == lines + [line];
    var prefix := if |order| > 0 then Render(m, order) + "\n" else "";
    if |order| > 0 {
      JoinAppend(lines, line, "\n");
      assert |lines[|lines| - 1]| > 0;
    } else {
      assert lines + [line] == [line];
    }
    assert Render(m, order + [k]) == prefix + line;
    assert prefix + line == prefix + k + "\t" + m[k];
  }

  /** `tsv` is what toTsv may return for `m`, whatever order the map iterates in. */
  ghost predicate IsTsvOf(tsv: string, m: map<string, string>) {
    exists order :: IsEnumeration(order, m.Keys) && tsv == Render(m, order)
  }

  /** A valid term holds no line break anywhere: only blanks lie outside its trimmed form. */
  lemma ValidTermHasNoLineBreak(term: string)
    requires IsValidTerm(term)
    ensures !HasLineBreak(term)
  {
    var lo, hi := TrimSlice(term);
    ValidTermHasNoSeparator(term);
    forall i | 0 <= i < |term|
      ensures term[i] != '\n' && term[i] != '\r'
    {
      if i < lo {
        assert term[..lo][i] == term[i];
      } else if i >= hi {
        assert term[hi..][i - hi] == term[i];
      } else {
        assert Trim(term)[i - lo] == term[i];
      }
    }
  }

  lemma ValidLine(m: map<string, string>, k: string)
    requires AllValid(m) && k in m
    ensures !HasLineBreak(TsvLine(m, k))
  {
    ValidTermHasNoLineBreak(k);
    ValidTermHasNoLineBreak(m[k]);
    assert TsvLine(m, k) == k + ['\t'] + m[k];
  }

  /**
   * The empty map renders as "", and a map of valid terms renders as exactly
   * one line per entry: no trailing line break, no line split inside a term.
   */
  lemma RenderShape(m: map<string, string>, order: seq<string>)
    requires IsEnumeration(order, m.Keys)
    ensures m == map[] <==> Render(m, order) == ""
    ensures AllValid(m) && m != map[] ==> SplitLines(Render(m, order)) == TsvLines(m, order)
  {
    var lines := TsvLines(m, order);
    if m != map[] {
      var k :| k in m;
      assert |order| > 0;
      var last := lines[|lines| - 1];
      assert |last| > 0;
      if |lines| > 1 {
        assert lines[..|lines| - 1] + [last] == lines;
        JoinAppend(lines[..|lines| - 1], last, "\n");
      }
      assert |Render(m, order)| >= |last|;
      if AllValid(m) {
        forall j | 0 <= j < |lines|
          ensures !HasLineBreak(lines[j])
        {
          ValidLine(m, order[j]);
        }
        SplitLinesJoin(lines);
      }
    }
  }

  // ---------------------------------------------------------------------------
  // TSV parsing

  /** The lines fromTsv iterates over: the input split at "\r\n", "\n" and "\r" as String.split does. */
  function TsvInputLines(tsv: string): seq<string> {
    JavaSplit(SplitLines(tsv))
  }

  /** The tab-separated fields of a trimmed line, as String.split("\\t") returns them. */
  function Fields(line: string): seq<string> {
    JavaSplit(SplitOn(line, '\t'))
  }

  /** What put checks of a pair: the source term first, then the target term. */
  function CheckPair(sourceTerm: string, targetTerm: string): (o: Outcome<Error>)
    ensures o.Pass? <==> IsValidTerm(sourceTerm) && IsValidTerm(targetTerm)
  {
    if CheckTerm(sourceTerm).Fail? then CheckTerm(sourceTerm) else CheckTerm(targetTerm)
  }

  /**
   * One iteration of the loop in fromTsv: the entries after line number
   * `lineNumber`, given the entries `acc` of the lines before it.
   */
  function ParseLine(line: string, lineNumber: nat, acc: map<string, string>): Result<map<string, string>, Error> {
    var lineTrimmed := Trim(line);
    if lineTrimmed == [] then Success(acc)
    else
      var fields := Fields(lineTrimmed);
      if |fields| < 2 then Failure(IllegalArgument(NoTermSeparator(lineNumber, lineTrimmed)))
      else if |fields| > 2 then Failure(IllegalArgument(ExtraTermSeparator(lineNumber, line)))
      else
        var sourceTerm := Trim(fields[0]);
        var targetTerm := Trim(fields[1]);
        if CheckPair(sourceTerm, targetTerm).Fail? then Failure(CheckPair(sourceTerm, targetTerm).error)
        else if sourceTerm in acc then Failure(IllegalArgument(DuplicateSourceTerm(lineNumber, sourceTerm)))
        else Success(acc[sourceTerm := targetTerm])
  }

  /** A parser of one line: the line, its 1-based number and the entries so far, to the new entries or the exception. */
  type LineParser = (string, nat, map<string, string>) -> Result<map<string, string>, Error>

  /**
   * The loop in fromTsv from line index `done` on, with `parse` handling each
   * line, followed by the check for an empty result.
   */
  function WalkLines(parse: LineParser, lines: seq<string>, done: nat, acc: map<string, string>)
    : Result<map<string, string>, Error>
    requires done <= |lines|
    decreases |lines| - done
  {
    if done == |lines| then
      if acc == map[] then Failure(IllegalArgument(NoValidEntries)) else Success(acc)
    else
      match parse(lines[done], done + 1, acc)
      case Failure(e) => Failure(e)
      case Success(next) => WalkLines(parse, lines, done + 1, next)
  }

  /** The loop in fromTsv from line index `done` on, followed by the check for an empty result. */
  function ParseLines(lines: seq<string>, done: nat, acc: map<string, string>): Result<map<string, string>, Error>
    requires done <= |lines|
  {
    WalkLines(ParseLine, lines, done, acc)
  }

  /** The specification of fromTsv. */
  function ParseTsv(tsv: string): Result<map<string, string>, Error> {
    ParseLines(TsvInputLines(tsv), 0, map[])
  }

  /** A trimmed, non-empty line has one more field than it has tabs. */
  lemma FieldsCount(line: string)
    requires line != [] && Trim(line) == line
    ensures |Fields(line)| == 1 + Count(line, '\t')
  {
    SplitOnCount(line, '\t');
    SplitOnLastNonEmpty(line, '\t');
  }

  /**
   * What one successfully parsed line does to the entries: a blank line adds
   * nothing; any other holds exactly one tab and adds one new entry, never
   * overwriting one, and keeps the entries canonical.
   */
  predicate LineAdds(line: string, acc: map<string, string>, next: map<string, string>) {
    && (Trim(line) == [] ==> next == acc)
    && (Trim(line) != [] ==>
          Count(Trim(line), '\t') == 1 && acc.Keys < next.Keys && |next| == |acc| + 1 &&
          (AllCanonical(acc) ==> AllCanonical(next)))
  }

  /**
   * A line that parses either is blank and adds nothing, or holds exactly one
   * tab and adds one new canonical entry, never overwriting one.
   */
  lemma ParseLineSuccess(line: string, lineNumber: nat, acc: map<string, string>)
    requires ParseLine(line, lineNumber, acc).Success?
    ensures LineAdds(line, acc, ParseLine(line, lineNumber, acc).value)
  {
    var lineTrimmed := Trim(line);
    if lineTrimmed != [] {
      FieldsCount(lineTrimmed);
      var fields := Fields(lineTrimmed);
      var s, t := Trim(fields[0]), Trim(fields[1]);
      TrimKeeps(s);
      TrimKeeps(t);
    }
  }

  /**
   * What a separator error says of the line it names: a missing separator is
   * reported with the line's number and trimmed text, which is non-blank and
   * holds no tab; an extra separator with the number and the line as read,
   * whose trimmed text holds two tabs or more.
   */
  predicate SeparatorErrorFits(line: string, lineNumber: nat, r: Result<map<string, string>, Error>) {
    && (r.Failure? && r.error.IllegalArgument? && r.error.problem.NoTermSeparator? ==>
          r.error.problem == NoTermSeparator(lineNumber, Trim(line)) &&
          Trim(line) != [] && Count(Trim(line), '\t') == 0)
    && (r.Failure? && r.error.IllegalArgument? && r.error.problem.ExtraTermSeparator? ==>
          r.error.problem == ExtraTermSeparator(lineNumber, line) &&
          Trim(line) != [] && Count(Trim(line), '\t') >= 2)
  }

  /** A separator error carries the line's number, and the line has no tab or more than one. */
  lemma ParseLineSeparatorError(line: string, lineNumber: nat, acc: map<string, string>)
    ensures SeparatorErrorFits(line, lineNumber, ParseLine(line, lineNumber, acc))
  {
    var lineTrimmed := Trim(line);
    if lineTrimmed != [] {
      FieldsCount(lineTrimmed);
    }
  }

  /** The non-blank lines among lines[done..]. */
  function NonBlankCount(lines: seq<string>, done: nat): nat
    requires done <= |lines|
    decreases |lines| - done
  {
    if done == |lines| then 0
    else (if Trim(lines[done]) == [] then 0 else 1) + NonBlankCount(lines, done + 1)
  }

  /** Every successful step of `parse` does what LineAdds says. */
  ghost predicate ParserAdds(parse: LineParser) {
    forall line, n, acc :: parse(line, n, acc).Success? ==> LineAdds(line, acc, parse(line, n, acc).value)
  }

  /** Over a parser whose steps keep the entries canonical, so does a successful walk. */
  lemma {:induction false} WalkCanonical(parse: LineParser, lines: seq<string>, done: nat, acc: map<string, string>)
    requires done <= |lines| && ParserAdds(parse) && AllCanonical(acc)
    requires WalkLines(parse, lines, done, acc).Success?
    ensures AllCanonical(WalkLines(parse, lines, done, acc).value)
    decreases |lines| - done
  {
    if done < |lines| {
      var next := parse(lines[done], done + 1, acc).value;
      assert LineAdds(lines[done], acc, next);
      WalkCanonical(parse, lines, done + 1, next);
    }
  }

  /** A successful walk never ends with no entries. */
  lemma {:induction false} WalkNonEmpty(parse: LineParser, lines: seq<string>, done: nat, acc: map<string, string>)
    requires done <= |lines| && ParserAdds(parse)
    requires WalkLines(parse, lines, done, acc).Success?
    ensures WalkLines(parse, lines, done, acc).value != map[]
    decreases |lines| - done
  {
    if done < |lines| {
      var next := parse(lines[done], done + 1, acc).value;
      assert LineAdds(lines[done], acc, next);
      WalkNonEmpty(parse, lines, done + 1, next);
    }
  }

  /** Over a parser that adds one new entry per non-blank line, a successful walk adds one per non-blank line. */
  lemma {:induction false} WalkSize(parse: LineParser, lines: seq<string>, done: nat, acc: map<string, string>)
    requires done <= |lines| && ParserAdds(parse)
    requires WalkLines(parse, lines, done, acc).Success?
    ensures |WalkLines(parse, lines, done, acc).value| == |acc| + NonBlankCount(lines, done)
    decreases |lines| - done
  {
    if done < |lines| {
      var next := parse(lines[done], done + 1, acc).value;
      assert LineAdds(lines[done], acc, next);
      WalkSize(parse, lines, done + 1, next);
    }
  }

  /** Every non-blank line of a successful walk holds exactly one tab. */
  lemma {:induction false} WalkTabs(parse: LineParser, lines: seq<string>, done: nat, acc: map<string, string>)
    requires done <= |lines| && ParserAdds(parse)
    requires WalkLines(parse, lines, done, acc).Success?
    ensures forall i :: done <= i < |lines| && Trim(lines[i]) != [] ==> Count(Trim(lines[i]), '\t') == 1
    decreases |lines| - done
  {
    if done < |lines| {
      var next := parse(lines[done], done + 1, acc).value;
      assert LineAdds(lines[done], acc, next);
      WalkTabs(parse, lines, done + 1, next);
    }
  }

  /**
   * What a successful parse guarantees: every entry is canonical and each
   * non-blank line, which then holds exactly one tab, contributes exactly one
   * new entry, so a repeated source term is never an overwrite.
   */
  lemma ParseLinesSuccess(lines: seq<string>, done: nat, acc: map<string, string>)
    requires done <= |lines|
    requires AllCanonical(acc)
    requires ParseLines(lines, done, acc).Success?
    ensures AllCanonical(ParseLines(lines, done, acc).value)
    ensures ParseLines(lines, done, acc).value != map[]
    ensures |ParseLines(lines, done, acc).value| == |acc| + NonBlankCount(lines, done)
    ensures forall i :: done <= i < |lines| && Trim(lines[i]) != [] ==> Count(Trim(lines[i]), '\t') == 1
  {
    forall line, n, a | ParseLine(line, n, a).Success?
      ensures LineAdds(line, a, ParseLine(line, n, a).value)
    {
      ParseLineSuccess(line, n, a);
    }
    WalkCanonical(ParseLine, lines, done, acc);
    WalkNonEmpty(ParseLine, lines, done, acc);
    WalkSize(ParseLine, lines, done, acc);
    WalkTabs(ParseLine, lines, done, acc);
  }

  /**
   * Where the walk stops: the index of the first line that fails to parse
   * (|lines| when none does) and the entries gathered before it.
   */
  function StopPoint(parse: LineParser, lines: seq<string>, done: nat, acc: map<string, string>)
    : (r: (nat, map<string, string>))
    requires done <= |lines|
    ensures done <= r.0 <= |lines|
    decreases |lines| - done
  {
    if done == |lines| then (done, acc)
    else
      match parse(lines[done], done + 1, acc)
      case Failure(_) => (done, acc)
      case Success(next) => StopPoint(parse, lines, done + 1, next)
  }

  /** The walk fails with the error of the line it stops at, or finishes with what all lines gathered. */
  lemma {:induction false} WalkStops(parse: LineParser, lines: seq<string>, done: nat, acc: map<string, string>)
    requires done <= |lines|
    ensures var stop := StopPoint(parse, lines, done, acc);
      stop.0 < |lines| ==>
        parse(lines[stop.0], stop.0 + 1, stop.1).Failure? &&
        WalkLines(parse, lines, done, acc) == parse(lines[stop.0], stop.0 + 1, stop.1)
    ensures var stop := StopPoint(parse, lines, done, acc);
      stop.0 == |lines| ==> WalkLines(parse, lines, done, acc) == WalkLines(parse, lines, |lines|, stop.1)
    decreases |lines| - done
  {
    if done < |lines| {
      var r := parse(lines[done], done + 1, acc);
      if r.Success? {
        WalkStops(parse, lines, done + 1, r.value);
      }
    }
  }

  /** Every failure of `parse` fits what SeparatorErrorFits says. */
  ghost predicate ParserNamesLines(parse: LineParser) {
    forall line, n, acc :: SeparatorErrorFits(line, n, parse(line, n, acc))
  }

  /** Over a parser whose separator errors fit their line, a walk's separator error names one of its lines. */
  lemma WalkSeparatorError(parse: LineParser, lines: seq<string>, done: nat, acc: map<string, string>)
    requires done <= |lines| && ParserNamesLines(parse)
    ensures var r := WalkLines(parse, lines, done, acc);
      r.Failure? && r.error.IllegalArgument? && r.error.problem.NoTermSeparator? ==>
        var n := r.error.problem.lineNumber;
        done < n <= |lines| && r.error.problem.line == Trim(lines[n - 1]) &&
        Trim(lines[n - 1]) != [] && Count(Trim(lines[n - 1]), '\t') == 0
    ensures var r := WalkLines(parse, lines, done, acc);
      r.Failure? && r.error.IllegalArgument? && r.error.problem.ExtraTermSeparator? ==>
        var n := r.error.problem.lineNumber;
        done < n <= |lines| && r.error.problem.line == lines[n - 1] &&
        Trim(lines[n - 1]) != [] && Count(Trim(lines[n - 1]), '\t') >= 2
  {
    WalkStops(parse, lines, done, acc);
    var stop := StopPoint(parse, lines, done, acc);
    if stop.0 < |lines| {
      assert SeparatorErrorFits(lines[stop.0], stop.0 + 1, parse(lines[stop.0], stop.0 + 1, stop.1));
    }
  }

  /**
   * A separator failure names a non-blank line by its 1-based number: one
   * whose trimmed form has no tab (the message quotes it trimmed), or one
   * that has more than one (the message quotes it as read).
   */
  lemma SeparatorErrorLine(lines: seq<string>, done: nat, acc: map<string, string>)
    requires done <= |lines|
    ensures var r := ParseLines(lines, done, acc);
      r.Failure? && r.error.IllegalArgument? && r.error.problem.NoTermSeparator? ==>
        var n := r.error.problem.lineNumber;
        done < n <= |lines| && r.error.problem.line == Trim(lines[n - 1]) &&
        Trim(lines[n - 1]) != [] && Count(Trim(lines[n - 1]), '\t') == 0
    ensures var r := ParseLines(lines, done, acc);
      r.Failure? && r.error.IllegalArgument? && r.error.problem.ExtraTermSeparator? ==>
        var n := r.error.problem.lineNumber;
        done < n <= |lines| && r.error.problem.line == lines[n - 1] &&
        Trim(lines[n - 1]) != [] && Count(Trim(lines[n - 1]), '\t') >= 2
  {
    forall line, n, a
      ensures SeparatorErrorFits(line, n, ParseLine(line, n, a))
    {
      ParseLineSeparatorError(line, n, a);
    }
    WalkSeparatorError(ParseLine, lines, done, acc);
  }

  /** fromTsv accepts the input only if it yields at least one canonical entry, one per non-blank line. */
  lemma ParseTsvSuccess(tsv: string)
    requires ParseTsv(tsv).Success?
    ensures var m := ParseTsv(tsv).value;
      AllCanonical(m) && m != map[] && |m| == NonBlankCount(TsvInputLines(tsv), 0)
    ensures var lines := TsvInputLines(tsv);
      forall i :: 0 <= i < |lines| && Trim(lines[i]) != [] ==> Count(Trim(lines[i]), '\t') == 1
  {
    ParseLinesSuccess(TsvInputLines(tsv), 0, map[]);
  }

  /** A line of only spaces. */
  predicate AllSpaces(s: string) { forall i :: 0 <= i < |s| ==> s[i] == ' ' }

  /**
   * Blanks around a line and spaces around its tab are trimmed away: a line
   * holding two canonical terms parses to that pair, or to a duplicate error
   * when the source term is already present.
   */
  lemma ParsePaddedLine(pre: string, k: string, mid1: string, mid2: string, v: string, post: string,
                        lineNumber: nat, acc: map<string, string>)
    requires IsCanonicalTerm(k) && IsCanonicalTerm(v)
    requires AllBlank(pre) && AllSpaces(mid1) && AllSpaces(mid2) && AllBlank(post)
    ensures ParseLine(pre + k + mid1 + "\t" + mid2 + v + post, lineNumber, acc) ==
      if k in acc then Failure(IllegalArgument(DuplicateSourceTerm(lineNumber, k)))
      else Success(acc[k := v])
  {
    PaddedLineTrims(pre, k, mid1, mid2, v, post);
    PaddedLineFields(k, mid1, mid2, v);
    assert CheckPair(k, v).Pass?;
  }

  /** Trimming a padded line leaves the terms with the spaces around the tab. */
  lemma PaddedLineTrims(pre: string, k: string, mid1: string, mid2: string, v: string, post: string)
    requires IsCanonicalTerm(k) && IsCanonicalTerm(v)
    requires AllBlank(pre) && AllBlank(post)
    ensures Trim(pre + k + mid1 + "\t" + mid2 + v + post) == (k + mid1) + "\t" + (mid2 + v)
  {
    var trimmed := (k + mid1) + "\t" + (mid2 + v);
    assert pre + k + mid1 + "\t" + mid2 + v + post == pre + trimmed + post;
    assert trimmed[0] == k[0] && trimmed[|trimmed| - 1] == v[|v| - 1];
    TrimPadded(pre, trimmed, post);
  }

  /** The tab splits the trimmed padded line into the two padded terms, each of which trims to its term. */
  lemma PaddedLineFields(k: string, mid1: string, mid2: string, v: string)
    requires IsCanonicalTerm(k) && IsCanonicalTerm(v) && AllSpaces(mid1) && AllSpaces(mid2)
    ensures Fields((k + mid1) + "\t" + (mid2 + v)) == [k + mid1, mid2 + v]
    ensures Trim(k + mid1) == k && Trim(mid2 + v) == v
  {
    var x, y := k + mid1, mid2 + v;
    TrimPadded("", k, mid1);
    assert "" + k + mid1 == x;
    TrimPadded(mid2, v, "");
    assert mid2 + v + "" == y;
    PaddedHasNoTab(k, mid1, mid2, v);
    SplitOnPair(x, y, '\t');
    JavaSplitKeeps([x, y]);
  }

  /** Blanks on either side of a string with non-blank ends are what Trim removes. */
  lemma TrimPadded(pre: string, body: string, post: string)
    requires AllBlank(pre) && AllBlank(post)
    requires body != [] && !IsBlank(body[0]) && !IsBlank(body[|body| - 1])
    ensures Trim(pre + body + post) == body
  {
    var s := pre + body + post;
    var lo, hi := |pre|, |pre| + |body|;
    assert s[..lo] == pre && s[hi..] == post && s[lo..hi] == body;
    TrimIsSlice(s, lo, hi);
  }

  lemma PaddedHasNoTab(k: string, mid1: string, mid2: string, v: string)
    requires IsCanonicalTerm(k) && IsCanonicalTerm(v) && AllSpaces(mid1) && AllSpaces(mid2)
    ensures '\t' !in k + mid1 && '\t' !in mid2 + v
  {
    ValidTermHasNoSeparator(k);
    ValidTermHasNoSeparator(v);
    var x, y := k + mid1, mid2 + v;
    assert forall i :: 0 <= i < |x| ==> x[i] == if i < |k| then k[i] else mid1[i - |k|];
    assert forall i :: 0 <= i < |y| ==> y[i] == if i < |mid2| then mid2[i] else v[i - |mid2|];
  }

  // ---------------------------------------------------------------------------
  // Round trip

  /** The entries of the keys order[..i]. */
  function Prefix(m: map<string, string>, order: seq<string>, i: nat): map<string, string>
    requires i <= |order|
  {
    map k | k in m && k in order[..i] :: m[k]
  }

  /** When each line takes the entries from accs[i] to accs[i + 1], the walk goes from the first to the last. */
  lemma {:induction false} WalkThrough(parse: LineParser, lines: seq<string>, done: nat,
                                       accs: seq<map<string, string>>)
    requires done <= |lines| && |accs| == |lines| + 1
    requires forall i :: done <= i < |lines| ==> parse(lines[i], i + 1, accs[i]) == Success(accs[i + 1])
    ensures WalkLines(parse, lines, done, accs[done]) == WalkLines(parse, lines, |lines|, accs[|lines|])
    decreases |lines| - done
  {
    if done < |lines| {
      WalkThrough(parse, lines, done + 1, accs);
    }
  }

  /** The key at position i is not among the first i keys, and adding it gives the first i + 1. */
  lemma PrefixStep(m: map<string, string>, order: seq<string>, i: nat)
    requires IsEnumeration(order, m.Keys) && i < |order|
    ensures order[i] !in Prefix(m, order, i)
    ensures Prefix(m, order, i)[order[i] := m[order[i]]] == Prefix(m, order, i + 1)
  {
    var k := order[i];
    assert order[..i + 1] == order[..i] + [k];
  }

  /** Line i of a rendering takes the entries of the first i keys to those of the first i + 1. */
  lemma ParseRenderedLine(m: map<string, string>, order: seq<string>, i: nat)
    requires AllCanonical(m) && IsEnumeration(order, m.Keys)
    requires i < |order|
    ensures ParseLine(TsvLines(m, order)[i], i + 1, Prefix(m, order, i)) == Success(Prefix(m, order, i + 1))
  {
    var k := order[i];
    assert TsvLines(m, order)[i] == "" + k + "" + "\t" + "" + m[k] + "";
    PrefixStep(m, order, i);
    ParsePaddedLine("", k, "", "", m[k], "", i + 1, Prefix(m, order, i));
  }

  /** No keys give no entries; all keys give the whole map. */
  lemma PrefixEnds(m: map<string, string>, order: seq<string>)
    requires IsEnumeration(order, m.Keys)
    ensures Prefix(m, order, 0) == map[]
    ensures Prefix(m, order, |order|) == m
  {
    assert order[..0] == [];
    assert order[..|order|] == order;
  }

  /** Parsing the lines of a rendering, line by line, gathers the whole map. */
  lemma ParseRendered(m: map<string, string>, order: seq<string>)
    requires AllCanonical(m) && m != map[] && IsEnumeration(order, m.Keys)
    ensures ParseLines(TsvLines(m, order), 0, map[]) == Success(m)
  {
    var lines := TsvLines(m, order);
    var accs := seq(|order| + 1, i requires 0 <= i <= |order| => Prefix(m, order, i));
    forall i | 0 <= i < |lines|
      ensures ParseLine(lines[i], i + 1, accs[i]) == Success(accs[i + 1])
    {
      ParseRenderedLine(m, order, i);
    }
    WalkThrough(ParseLine, lines, 0, accs);
    PrefixEnds(m, order);
  }

  /**
   * Round trip: for non-empty entries whose terms are valid and carry no
   * blanks at either end, parsing what toTsv renders, in any iteration order,
   * gives back the same map.
   */
  lemma RoundTrip(m: map<string, string>, order: seq<string>)
    requires AllCanonical(m) && m != map[] && IsEnumeration(order, m.Keys)
    ensures ParseTsv(Render(m, order)) == Success(m)
  {
    var lines := TsvLines(m, order);
    RenderShape(m, order);
    assert lines[|lines| - 1] != "";
    JavaSplitKeeps(lines);
    ParseRendered(m, order);
  }

  /** A map with as many entries as another, all of them in it, is that map. */
  lemma SameSizeSubmap(a: map<string, string>, b: map<string, string>)
    ensures (|a| == |b| && forall k :: k in a ==> k in b && b[k] == a[k]) ==> a == b
  {
    if |a| == |b| && forall k :: k in a ==> k in b && b[k] == a[k] {
      var extra := b.Keys - a.Keys;
      assert b.Keys == a.Keys + extra;
      assert |b.Keys| == |a.Keys| + |extra|;
      assert extra == {};
      assert a.Keys == b.Keys;
    }
  }

  // ---------------------------------------------------------------------------
  // The class

  /** The entries of `m` whose keys are in `keys`. */
  function Restrict(m: map<string, string>, keys: set<string>): map<string, string> {
    map k | k in m && k in keys :: m[k]
  }

  /** Adding one more key to the restriction is one more map update. */
  lemma RestrictStep(m: map<string, string>, keys: set<string>, k: string, base: map<string, string>)
    requires k in m
    ensures Restrict(m, keys + {k}) == Restrict(m, keys)[k := m[k]]
    ensures base + Restrict(m, keys + {k}) == (base + Restrict(m, keys))[k := m[k]]
  {
    assert Restrict(m, keys + {k}) == Restrict(m, keys)[k := m[k]];
  }

  /** Restricting to all of its keys leaves a map as it is, also when merged into the empty map. */
  lemma RestrictAll(m: map<string, string>)
    ensures map[] + Restrict(m, m.Keys) == m
  {
    assert Restrict(m, m.Keys) == m;
  }

  class GlossaryEntries {
    var entries: map<string, string>

    /** What `put` maintains: every stored term is valid. */
    ghost predicate Valid()
      reads this
    {
      AllValid(entries)
    }

    constructor ()
      ensures entries == map[] && Valid()
    {
      entries := map[];
    }

    /**
     * put: validate the source term, then the target term, and only then
     * store the pair as given (untrimmed); returns the previous target term.
     */
    method Put(sourceTerm: string, targetTerm: string) returns (r: Result<Option<string>, Error>)
      modifies this
      ensures CheckPair(sourceTerm, targetTerm).Fail? ==>
        r == Failure(CheckPair(sourceTerm, targetTerm).error) && entries == old(entries)
      ensures CheckPair(sourceTerm, targetTerm).Pass? ==>
        entries == old(entries)[sourceTerm := targetTerm] &&
        r == Success(if sourceTerm in old(entries) then Some(old(entries)[sourceTerm]) else None)
      ensures old(Valid()) ==> Valid()
    {
      var o := ValidateGlossaryTerm(sourceTerm);
      if o.Fail? {
        return Failure(o.error);
      }
      o := ValidateGlossaryTerm(targetTerm);
      if o.Fail? {
        return Failure(o.error);
      }
      var previous := if sourceTerm in entries then Some(entries[sourceTerm]) else None;
      entries := entries[sourceTerm := targetTerm];
      return Success(previous);
    }

    /**
     * putAll: put each pair, in the map's (unspecified) iteration order,
     * stopping at the first invalid one. It succeeds exactly when every pair
     * is valid, and then all pairs have been merged in; on failure it reports
     * the error of a pair not yet `added`, and the pairs added before it stay.
     */
    method PutAll(m: map<string, string>) returns (o: Outcome<Error>, ghost added: set<string>)
      modifies this
      ensures added <= m.Keys && AllValid(Restrict(m, added))
      ensures entries == old(entries) + Restrict(m, added)
      ensures o.Pass? <==> AllValid(m)
      ensures o.Pass? ==> added == m.Keys
      ensures o.Fail? ==> exists k :: k in m.Keys - added && o == CheckPair(k, m[k])
      ensures old(Valid()) ==> Valid()
    {
      added := {};
      var remaining := m.Keys;
      while remaining != {}
        invariant remaining == m.Keys - added
        invariant added <= m.Keys && AllValid(Restrict(m, added))
        invariant entries == old(entries) + Restrict(m, added)
        invariant old(Valid()) ==> Valid()
        decreases remaining
      {
        var k :| k in remaining;
        var r := Put(k, m[k]);
        if r.Failure? {
          return Fail(r.error), added;
        }
        RestrictStep(m, added, k, old(entries));
        added := added + {k};
        remaining := remaining - {k};
      }
      assert Restrict(m, added) == m;
      return Pass, added;
    }

    /**
     * toTsv: append "key\tvalue" for each entry, in the map's iteration
     * order, with "\n" before every entry but the first.
     */
    method ToTsv() returns (tsv: string, ghost order: seq<string>)
      ensures IsEnumeration(order, entries.Keys) && tsv == Render(entries, order)
      ensures IsTsvOf(tsv, entries)
      ensures |tsv| > 0 <==> |entries| > 0
    {
      var builder := "";
      order := [];
      var remaining := entries.Keys;
      while remaining != {}
        invariant remaining <= entries.Keys
        invariant forall i :: 0 <= i < |order| ==> order[i] in entries && order[i] !in remaining
        invariant forall k :: k in entries ==> k in remaining || k in order
        invariant forall i, j :: 0 <= i < j < |order| ==> order[i] != order[j]
        invariant builder == Render(entries, order)
        invariant |builder| > 0 <==> |order| > 0
        decreases remaining
      {
        var k :| k in remaining;
        RenderSnoc(entries, order, k);
        if |builder| > 0 {
          builder := builder + "\n";
        }
        builder := builder + k + "\t" + entries[k];
        order := order + [k];
        remaining := remaining - {k};
      }
      tsv := builder;
    }

    /**
     * equals: two GlossaryEntries are equal when their maps are, which for
     * Java maps means the same size and every entry of one also in the other.
     */
    predicate Equals(other: GlossaryEntries): (r: bool)
      reads this, other
      ensures r <==> |entries| == |other.entries| &&
                     forall k :: k in entries ==> k in other.entries && other.entries[k] == entries[k]
    {
      SameSizeSubmap(entries, other.entries);
      entries == other.entries
    }
  }

  /** new GlossaryEntries(entryPairs): a fresh object holding exactly the pairs, or the first validation error. */
  method FromMap(entryPairs: map<string, string>) returns (r: Result<GlossaryEntries, Error>)
    ensures r.Success? <==> AllValid(entryPairs)
    ensures r.Success? ==> fresh(r.value) && r.value.entries == entryPairs && r.value.Valid()
  {
    var g := new GlossaryEntries();
    var o, added := g.PutAll(entryPairs);
    if o.Fail? {
      return Failure(o.error);
    }
    RestrictAll(entryPairs);
    return Success(g);
  }

  /**
   * The body of fromTsv's loop for one line: a blank line yields no pair;
   * any other is split at its tab, both terms are trimmed and validated, and
   * a source term already present is rejected.
   */
  method ReadTsvLine(line: string, lineNumber: nat, entries: map<string, string>)
    returns (r: Result<Option<(string, string)>, Error>)
    ensures r.Failure? ==> ParseLine(line, lineNumber, entries) == Failure(r.error)
    ensures r.Success? && r.value.None? ==> ParseLine(line, lineNumber, entries) == Success(entries)
    ensures r.Success? && r.value.Some? ==>
      var (sourceTerm, targetTerm) := r.value.value;
      CheckPair(sourceTerm, targetTerm).Pass? &&
      ParseLine(line, lineNumber, entries) == Success(entries[sourceTerm := targetTerm])
  {
    var lineTrimmed := TrimWhitespace(line);
    if lineTrimmed == [] {
      return Success(None);
    }
    var splitLine := Fields(lineTrimmed);
    if |splitLine| < 2 {
      return Failure(IllegalArgument(NoTermSeparator(lineNumber, lineTrimmed)));
    } else if |splitLine| > 2 {
      return Failure(IllegalArgument(ExtraTermSeparator(lineNumber, line)));
    }
    var sourceTerm := TrimWhitespace(splitLine[0]);
    var targetTerm := TrimWhitespace(splitLine[1]);
    var o := ValidateGlossaryTerm(sourceTerm);
    if o.Fail? {
      return Failure(o.error);
    }
    o := ValidateGlossaryTerm(targetTerm);
    if o.Fail? {
      return Failure(o.error);
    }
    if sourceTerm in entries {
      return Failure(IllegalArgument(DuplicateSourceTerm(lineNumber, sourceTerm)));
    }
    return Success(Some((sourceTerm, targetTerm)));
  }

  /** The walk from line index i on: parse line i, then go on from the entries it gives, or stop at its exception. */
  lemma ParseLinesStep(lines: seq<string>, i: nat, acc: map<string, string>)
    requires i < |lines|
    ensures var step := ParseLine(lines[i], i + 1, acc);
      ParseLines(lines, i, acc) == if step.Failure? then Failure(step.error) else ParseLines(lines, i + 1, step.value)
  {
  }

  /** At the end of the lines, the walk fails exactly when no entry was gathered. */
  lemma ParseLinesEnd(lines: seq<string>, acc: map<string, string>)
    ensures ParseLines(lines, |lines|, acc) == if acc == map[] then Failure(IllegalArgument(NoValidEntries)) else Success(acc)
  {
  }

  /**
   * fromTsv: walk the lines with a 1-based line counter, reading each line
   * as ReadTsvLine does and putting its pair, then fail if no entry results.
   */
  method FromTsv(tsv: string) returns (r: Result<GlossaryEntries, Error>)
    ensures r.Success? <==> ParseTsv(tsv).Success?
    ensures r.Success? ==> fresh(r.value) && r.value.entries == ParseTsv(tsv).value
    ensures r.Failure? ==> r.error == ParseTsv(tsv).error
  {
    var result := new GlossaryEntries();
    var lines := TsvInputLines(tsv);
    var lineNumber := 0;
    for i := 0 to |lines|
      invariant lineNumber == i
      invariant ParseLines(lines, i, result.entries) == ParseTsv(tsv)
    {
      ParseLinesStep(lines, i, result.entries);
      lineNumber := lineNumber + 1;
      var read := ReadTsvLine(lines[i], lineNumber, result.entries);
      if read.Failure? {
        return Failure(read.error);
      }
      if read.value.Some? {
        var (sourceTerm, targetTerm) := read.value.value;
        var _ := result.Put(sourceTerm, targetTerm);
      }
    }
    ParseLinesEnd(lines, result.entries);
    if result.entries == map[] {
      return Failure(IllegalArgument(NoValidEntries));
    }
    return Success(result);
  }
}
