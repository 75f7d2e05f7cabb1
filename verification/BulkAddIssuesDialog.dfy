/** The bulk dialog: one issue title per line of a text area. */
module BulkAddIssuesDialog {
  import opened Wrappers
  import opened Seqs
  import opened Strings
  import opened Types
  import opened App

  /** `title.length > 0` */
  predicate NonEmpty(t: string) {
    |t| > 0
  }

  /** The title-parsing chain of `handleSubmit`: split on newlines, trim every piece,
      drop the empty ones. */
  function ParseTitles(input: string): (titles: seq<string>)
    ensures forall k :: 0 <= k < |titles| ==> titles[k] != "" && Trimmed(titles[k])
    ensures |titles| <= CountChar(input, '\n') + 1
  {
    Filter(Map(Split(input, '\n'), Trim), NonEmpty)
  }

  /** A line-by-line reading of the same parse: a line that is all whitespace
      contributes nothing, any other line contributes itself trimmed. */
  function TitlesOfLines(lines: seq<string>): seq<string>
    decreases |lines|
  {
    if |lines| == 0 then []
    else (if AllWhitespace(lines[0]) then [] else [Trim(lines[0])]) + TitlesOfLines(lines[1..])
  }

  /** The chained parse agrees with the line-by-line reading. */
  lemma {:induction false} ParseByLines(lines: seq<string>)
    ensures Filter(Map(lines, Trim), NonEmpty) == TitlesOfLines(lines)
    decreases |lines|
  {
    if |lines| > 0 {
      var mapped := Map(lines, Trim);
      assert mapped[1..] == Map(lines[1..], Trim);
      TrimEmptyIffBlank(lines[0]);
      ParseByLines(lines[1..]);
    }
  }

  /** The line-by-line reading works block by block, so the titles keep the order of
      their lines. */
  lemma {:induction false} TitlesOfConcat(a: seq<string>, b: seq<string>)
    ensures TitlesOfLines(a + b) == TitlesOfLines(a) + TitlesOfLines(b)
    decreases |a|
  {
    if |a| == 0 {
      assert a + b == b;
    } else {
      assert (a + b)[0] == a[0];
      assert (a + b)[1..] == a[1..] + b;
      var first := if AllWhitespace(a[0]) then [] else [Trim(a[0])];
      assert TitlesOfLines(a + b) == first + TitlesOfLines(a[1..] + b);
      TitlesOfConcat(a[1..], b);
      assert TitlesOfLines(a) == first + TitlesOfLines(a[1..]);
    }
  }

  /** Splitting after a newline-free first line separates that line from the rest. */
  lemma ParseFirstLine(line: string, rest: string)
    requires '\n' !in line
    ensures ParseTitles(line + "\n" + rest) == TitlesOfLines([line]) + ParseTitles(rest)
  {
    SplitAfterPiece(line, rest, '\n');
    var lines := Split(line + "\n" + rest, '\n');
    ParseByLines(lines);
    ParseByLines(Split(rest, '\n'));
    TitlesOfConcat([line], Split(rest, '\n'));
  }

  /** No title is parsed exactly when the input is whitespace and newlines only. */
  lemma ParseEmptyIffBlank(input: string)
    ensures ParseTitles(input) == [] <==> AllWhitespace(input)
  {
    var lines := Split(input, '\n');
    ParseByLines(lines);
    JoinSplit(input, '\n');
    AllBlankIffJoinBlank(lines);
    NoTitlesIffAllBlank(lines);
  }

  lemma {:induction false} NoTitlesIffAllBlank(lines: seq<string>)
    ensures TitlesOfLines(lines) == [] <==> forall k :: 0 <= k < |lines| ==> AllWhitespace(lines[k])
    decreases |lines|
  {
    if |lines| > 0 {
      NoTitlesIffAllBlank(lines[1..]);
      assert forall k :: 1 <= k < |lines| ==> lines[k] == lines[1..][k - 1];
    }
  }

  /** Joining with a newline, itself whitespace, gives a blank text exactly when every
      piece is blank. */
  lemma {:induction false} AllBlankIffJoinBlank(lines: seq<string>)
    ensures AllWhitespace(Join(lines, "\n")) <==> forall k :: 0 <= k < |lines| ==> AllWhitespace(lines[k])
    decreases |lines|
  {
    if |lines| > 1 {
      AllBlankIffJoinBlank(lines[1..]);
      var tail := Join(lines[1..], "\n");
      var j := lines[0] + "\n" + tail;
      assert forall i :: 0 <= i < |lines[0]| ==> j[i] == lines[0][i];
      assert forall i :: 0 <= i < |tail| ==> j[|lines[0]| + 1 + i] == tail[i];
      assert forall k :: 1 <= k < |lines| ==> lines[k] == lines[1..][k - 1];
    }
  }

  /** A list of clean titles, written one per line, parses back to itself. */
  lemma ParseJoinedTitles(titles: seq<string>)
    requires forall k :: 0 <= k < |titles| ==> titles[k] != "" && Trimmed(titles[k]) && '\n' !in titles[k]
    ensures ParseTitles(Join(titles, "\n")) == titles
  {
    if |titles| == 0 {
      ParseByLines([""]);
    } else {
      SplitJoin(titles, '\n');
      assert Split(Join(titles, "\n"), '\n') == titles;
      TrimKeepsTrimmed(titles);
      FilterKeepsAll(titles, NonEmpty);
    }
  }

  /** Trimming clean titles changes none of them. */
  lemma TrimKeepsTrimmed(titles: seq<string>)
    requires forall k :: 0 <= k < |titles| ==> Trimmed(titles[k])
    ensures Map(titles, Trim) == titles
  {
    forall k | 0 <= k < |titles| ensures Map(titles, Trim)[k] == titles[k] {
      TrimOfTrimmed(titles[k]);
    }
  }

  datatype Outcome = NoProject | NoTitles | Added(titles: seq<string>)

  datatype Submission = Submission(outcome: Outcome, input: string, open: bool)

  /** `handleSubmit`: refused without a project, then refused when the input holds no
      title; otherwise the parsed titles go to the caller, the text area empties and the
      dialog closes. A refusal leaves the text and the dialog as they were. */
  function Submit(input: string, open: bool, projectId: Option<string>): (r: Submission)
    ensures r.outcome == NoProject <==> !Truthy(projectId)
    ensures r.outcome == NoTitles <==> Truthy(projectId) && AllWhitespace(input)
    ensures r.outcome.Added? ==> r.outcome.titles == ParseTitles(input) && r.input == "" && !r.open
    ensures !r.outcome.Added? ==> r.input == input && r.open == open
  {
    ParseEmptyIffBlank(input);
    if !Truthy(projectId) then Submission(NoProject, input, open)
    else
      var titles := ParseTitles(input);
      if |titles| == 0 then Submission(NoTitles, input, open)
      else Submission(Added(titles), "", false)
  }

  /** What the bulk handler stores for a successful submit (a project is selected and
      the input is not blank, which is when `Submit` adds): one issue per parsed title,
      each title non-empty and trimmed. */
  lemma SubmittedTitlesAreClean(s: Store, input: string, projectId: string, workspaceId: string,
                                uuids: seq<string>, logIds: seq<string>, now: nat)
    requires projectId != "" && !AllWhitespace(input)
    requires |uuids| == |ParseTitles(input)| && |logIds| == |ParseTitles(input)|
    ensures var titles := ParseTitles(input);
      var r := HandleAddBulkIssues(s, titles, projectId, workspaceId, uuids, logIds, now);
      && |r.issues| == |s.issues| + |titles| && |titles| > 0
      && forall k :: |s.issues| <= k < |r.issues| ==> r.issues[k].title != "" && Trimmed(r.issues[k].title)
  {
    var titles := ParseTitles(input);
    ParseEmptyIffBlank(input);
    var r := HandleAddBulkIssues(s, titles, projectId, workspaceId, uuids, logIds, now);
    forall k | |s.issues| <= k < |r.issues|
      ensures r.issues[k].title != "" && Trimmed(r.issues[k].title)
    {
      assert r.issues[|s.issues| + (k - |s.issues|)].title == titles[k - |s.issues|];
    }
  }
}
