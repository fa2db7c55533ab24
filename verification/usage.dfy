/**
 * Account usage: up to three counters, each a count against a limit, and
 * their report.
 */
module Usage {
  import opened Wrappers
  import opened Text

  /** One usage counter. */
  datatype Detail = Detail(count: int, limit: int)

  /** Detail.limitReached. */
  predicate LimitReached(d: Detail) {
    d.count >= d.limit
  }

  /** Detail.toString: "<count> of <limit>". */
  function DetailString(d: Detail): string {
    IntToString(d.count) + " of " + IntToString(d.limit)
  }

  /** The usage of the billing period; each counter may be absent. */
  datatype UsageInfo = UsageInfo(character: Option<Detail>, document: Option<Detail>, teamDocument: Option<Detail>)

  /** anyLimitReached: some present counter has reached its limit. */
  predicate AnyLimitReached(u: UsageInfo) {
    || (u.character.Some? && LimitReached(u.character.value))
    || (u.document.Some? && LimitReached(u.document.value))
    || (u.teamDocument.Some? && LimitReached(u.teamDocument.value))
  }

  const Heading: string := "Usage this billing period:"

  /** One step of Usage.toString: a line "<label>: <detail>" for a present counter, nothing otherwise. */
  function AddLabelledDetail(sb: string, name: string, d: Option<Detail>): string {
    if d.Some? then sb + "\n" + name + ": " + DetailString(d.value) else sb
  }

  /** Usage.toString. */
  function UsageString(u: UsageInfo): string {
    var sb := AddLabelledDetail(Heading, "Characters", u.character);
    var sb := AddLabelledDetail(sb, "Documents", u.document);
    AddLabelledDetail(sb, "Team documents", u.teamDocument)
  }

  /** The present counters with their labels, in report order. */
  function LabelledDetails(u: UsageInfo): (r: seq<(string, Detail)>)
    ensures |r| <= 3
  {
    (if u.character.Some? then [("Characters", u.character.value)] else []) +
    (if u.document.Some? then [("Documents", u.document.value)] else []) +
    (if u.teamDocument.Some? then [("Team documents", u.teamDocument.value)] else [])
  }

  /** The line a counter contributes to the report: none when it is absent. */
  function LineFor(name: string, d: Option<Detail>): (r: seq<string>)
    ensures |r| <= 1
  {
    if d.Some? then [name + ": " + DetailString(d.value)] else []
  }

  /** The report's lines: the heading, then one line per present counter, in the order of LabelledDetails. */
  function ReportLines(u: UsageInfo): (r: seq<string>)
    ensures |r| == 1 + |LabelledDetails(u)|
    ensures forall i :: 1 <= i < |r| ==> r[i] == LabelledDetails(u)[i - 1].0 + ": " + DetailString(LabelledDetails(u)[i - 1].1)
  {
    [Heading] + LineFor("Characters", u.character) + LineFor("Documents", u.document) +
    LineFor("Team documents", u.teamDocument)
  }

  /** Some present counter has reached its limit exactly when anyLimitReached says so; never when all are absent. */
  lemma AnyLimitReachedIff(u: UsageInfo)
    ensures AnyLimitReached(u) <==> exists i :: 0 <= i < |LabelledDetails(u)| && LimitReached(LabelledDetails(u)[i].1)
    ensures u.character.None? && u.document.None? && u.teamDocument.None? ==> !AnyLimitReached(u)
  {
    var ds := LabelledDetails(u);
    if AnyLimitReached(u) {
      if u.character.Some? && LimitReached(u.character.value) {
        assert ds[0].1 == u.character.value;
      } else if u.document.Some? && LimitReached(u.document.value) {
        var j := if u.character.Some? then 1 else 0;
        assert ds[j].1 == u.document.value;
      } else {
        assert ds[|ds| - 1].1 == u.teamDocument.value;
      }
    }
  }

  lemma NoLineBreakInNumber(i: int)
    ensures '\n' !in IntToString(i)
  {
    var digits := NatToString(if i < 0 then -i else i);
    assert forall j :: 0 <= j < |digits| ==> digits[j] != '\n';
  }

  lemma NoLineBreakInLines(name: string, d: Option<Detail>)
    requires '\n' !in name
    ensures forall i :: 0 <= i < |LineFor(name, d)| ==> '\n' !in LineFor(name, d)[i]
  {
    if d.Some? {
      NoLineBreakInNumber(d.value.count);
      NoLineBreakInNumber(d.value.limit);
    }
  }

  lemma AppendLineAssoc(sb: string, name: string, detail: string)
    ensures sb + "\n" + name + ": " + detail == sb + "\n" + (name + ": " + detail)
  {
  }

  /** Appending a counter's line to a joined report extends the joined lines by that line. */
  lemma AddLabelledDetailJoin(lines: seq<string>, name: string, d: Option<Detail>)
    requires |lines| > 0
    ensures AddLabelledDetail(Join(lines, "\n"), name, d) == Join(lines + LineFor(name, d), "\n")
  {
    if d.Some? {
      var sb, detail := Join(lines, "\n"), DetailString(d.value);
      var line := name + ": " + detail;
      assert LineFor(name, d) == [line];
      AppendLineAssoc(sb, name, detail);
      JoinAppend(lines, line, "\n");
    } else {
      assert lines + [] == lines;
    }
  }

  /** The report is its lines joined by line breaks. */
  lemma UsageStringJoin(u: UsageInfo)
    ensures UsageString(u) == Join(ReportLines(u), "\n")
  {
    var l1 := [Heading] + LineFor("Characters", u.character);
    var l2 := l1 + LineFor("Documents", u.document);
    AddLabelledDetailJoin([Heading], "Characters", u.character);
    AddLabelledDetailJoin(l1, "Documents", u.document);
    AddLabelledDetailJoin(l2, "Team documents", u.teamDocument);
  }

  /**
   * Splitting the report at '\n' gives back the heading and one
   * "<label>: <count> of <limit>" line per present counter, in the order
   * Characters, Documents, Team documents.
   */
  lemma UsageStringLines(u: UsageInfo)
    ensures SplitOn(UsageString(u), '\n') == ReportLines(u)
  {
    UsageStringJoin(u);
    ReportLinesNoBreak(u);
    SplitOnJoin(ReportLines(u), '\n');
  }

  /** Lines with no line break, concatenated, still hold none. */
  lemma NoBreakConcat(a: seq<string>, b: seq<string>)
    requires forall i :: 0 <= i < |a| ==> '\n' !in a[i]
    requires forall i :: 0 <= i < |b| ==> '\n' !in b[i]
    ensures forall i :: 0 <= i < |a + b| ==> '\n' !in (a + b)[i]
  {
  }

  lemma ReportLinesNoBreak(u: UsageInfo)
    ensures forall i :: 0 <= i < |ReportLines(u)| ==> '\n' !in ReportLines(u)[i]
  {
    var c, d, t := LineFor("Characters", u.character), LineFor("Documents", u.document),
      LineFor("Team documents", u.teamDocument);
    NoLineBreakInLines("Characters", u.character);
    NoLineBreakInLines("Documents", u.document);
    NoLineBreakInLines("Team documents", u.teamDocument);
    NoBreakConcat([Heading], c);
    NoBreakConcat([Heading] + c, d);
    NoBreakConcat([Heading] + c + d, t);
  }

  /** A counter prints as its two numbers around " of ", and both can be read back. */
  lemma DetailStringParts(d: Detail)
    requires d.count >= 0 && d.limit >= 0
    ensures SplitOn(DetailString(d), ' ') == [NatToString(d.count), "of", NatToString(d.limit)]
    ensures DigitsValue(NatToString(d.count)) == d.count && DigitsValue(NatToString(d.limit)) == d.limit
  {
    var c, l := NatToString(d.count), NatToString(d.limit);
    assert ' ' !in c by {
      assert forall j :: 0 <= j < |c| ==> c[j] != ' ';
    }
    assert ' ' !in l by {
      assert forall j :: 0 <= j < |l| ==> l[j] != ' ';
    }
    assert DetailString(d) == Join([c, "of", l], " ") by {
      JoinAppend([c], "of", " ");
      JoinAppend([c, "of"], l, " ");
      assert [c, "of", l][..2] == [c, "of"];
      assert [c, "of"][..1] == [c];
    }
    SplitOnJoin([c, "of", l], ' ');
    NatToStringRoundTrip(d.count);
    NatToStringRoundTrip(d.limit);
  }
}
