/**
 The report files: each of the seven lists is written one entry per line,
 with a final newline, and an empty list gives an empty file. Reading a
 report back with `splitlines()` gives the list again, because no entry can
 hold a line boundary.
 */
module Report {
  import opened Text
  import opened Recommend
  import opened RecommendLaws

  /** The text `write_list` puts in a file: the values joined by "\n", plus a
      final "\n" when there is at least one value. */
  function WriteList(values: seq<string>): (text: string)
    ensures text == [] <==> values == []
    ensures values != [] ==> text[|text| - 1] == '\n'
  {
    if values == [] then [] else values[0] + "\n" + WriteList(values[1..])
  }

  /** `"\n".join(values)`: the values with a "\n" between neighbours. */
  function JoinLines(values: seq<string>): string {
    if values == [] then []
    else if |values| == 1 then values[0]
    else values[0] + "\n" + JoinLines(values[1..])
  }

  /** `write_list` writes the joined values followed by one "\n", or nothing
      at all for an empty list. */
  lemma {:induction false} WriteListIsJoin(values: seq<string>)
    ensures WriteList(values) == if values == [] then [] else JoinLines(values) + "\n"
  {
    if |values| > 1 {
      WriteListIsJoin(values[1..]);
      assert values[0] + "\n" + (JoinLines(values[1..]) + "\n")
        == (values[0] + "\n" + JoinLines(values[1..])) + "\n";
    }
  }

  /** Reading a report back line by line gives the list that was written,
      provided no value holds a line boundary. */
  lemma {:induction false} WriteListRoundTrip(values: seq<string>)
    requires forall k :: 0 <= k < |values| ==> NoLineBreak(values[k])
    ensures SplitLines(WriteList(values)) == values
  {
    if values != [] {
      WriteListRoundTrip(values[1..]);
      SplitLinesCons(values[0], WriteList(values[1..]));
    }
  }

  /** No report entry holds a line boundary: entries are stripped lines of the
      manifest as `splitlines()` cut it. */
  lemma {:induction false} ReportEntryIsOneLine(manifestText: string, env: Env, w: ListName, x: string)
    requires x in Outputs(SplitLines(manifestText), env).Get(w)
    ensures NoLineBreak(x)
  {
    var rawLines := SplitLines(manifestText);
    OutputsHas(rawLines, env, w, x);
    EntriesAreKeptLines(rawLines, x);
    var raw :| raw in rawLines && Kept(raw) && Strip(raw) == x;
    StripKeepsNoLineBreak(raw);
  }

  /** Every report file, read back line by line, gives exactly its list. */
  lemma ReportRoundTrip(manifestText: string, env: Env, w: ListName)
    ensures SplitLines(WriteList(Outputs(SplitLines(manifestText), env).Get(w)))
      == Outputs(SplitLines(manifestText), env).Get(w)
  {
    var values := Outputs(SplitLines(manifestText), env).Get(w);
    forall k | 0 <= k < |values| ensures NoLineBreak(values[k]) {
      ReportEntryIsOneLine(manifestText, env, w, values[k]);
    }
    WriteListRoundTrip(values);
  }
}
