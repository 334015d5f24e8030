/** The parser `get_status` applies to the output of `git status --porcelain`
    (git's short format, porcelain version 1): every non-blank line is a
    two-character status code, a separator and a file name. */
module Porcelain {
  import opened Outcomes
  import opened Text

  /** The classification the web app gives a status code. */
  datatype StatusKind = Untracked | ModifiedStaged | Modified | Added | Deleted | Unknown {

    /** The string the backend sends to the browser for this kind. */
    function Wire(): string {
      match this
      case Untracked => "untracked"
      case ModifiedStaged => "modified_staged"
      case Modified => "modified"
      case Added => "added"
      case Deleted => "deleted"
      case Unknown => "unknown"
    }
  }

  datatype FileEntry = FileEntry(name: string, kind: StatusKind)

  /** A non-blank line one character long whose character is not `M`: the
      parser reads the second character of its code and Python raises
      `IndexError`, which escapes `get_status`. */
  datatype ParseError = ShortStatusLine(line: string)

  /** First-match classification of a two-character code `xy`: `??`, then a
      staged modification, then an unstaged one, then added, then deleted. */
  function Classify(x: char, y: char): (k: StatusKind)
    ensures k == Untracked <==> x == '?' && y == '?'
    ensures k == ModifiedStaged <==> x == 'M'
    ensures k == Modified <==> x != 'M' && y == 'M'
    ensures k == Added <==> x == 'A' && y != 'M'
    ensures k == Deleted <==> x == 'D' && y != 'M'
    ensures k == Unknown <==> x !in "MAD" && y != 'M' && !(x == '?' && y == '?')
  {
    if x == '?' && y == '?' then Untracked
    else if x == 'M' then ModifiedStaged
    else if y == 'M' then Modified
    else if x == 'A' then Added
    else if x == 'D' then Deleted
    else Unknown
  }

  /** A code matching several rules takes the earliest one. */
  lemma ClassifyPrecedence()
    ensures Classify('M', 'M') == ModifiedStaged
    ensures Classify('A', 'M') == Modified
    ensures Classify('D', 'M') == Modified
    ensures Classify(' ', 'M') == Modified
    ensures Classify('A', ' ') == Added && Classify('D', ' ') == Deleted
    ensures Classify('R', ' ') == Unknown && Classify(' ', 'D') == Unknown
  {
  }

  /** A line the parser accepts: at least two characters, or a lone `M`. */
  predicate Parsable(line: string) {
    |line| >= 2 || (|line| == 1 && line[0] == 'M')
  }

  /** Python `line[3:]`. */
  function NameOf(line: string): string {
    if |line| >= 3 then line[3..] else ""
  }

  /** The entry for an accepted line; a lone `M` is a staged modification
      with an empty name. */
  function EntryOf(line: string): FileEntry {
    if |line| >= 2 then FileEntry(NameOf(line), Classify(line[0], line[1]))
    else if |line| == 1 && line[0] == 'M' then FileEntry("", ModifiedStaged)
    else FileEntry("", Unknown)
  }

  /** One non-blank line. */
  function ParseLine(line: string): (r: Result<FileEntry, ParseError>)
    requires !IsBlank(line)
    ensures r.Success? <==> Parsable(line)
    ensures r.Success? ==> r.value == EntryOf(line)
    ensures r.Failure? ==> r.error == ShortStatusLine(line)
  {
    if |line| < 2 && line[0] != 'M' then Failure(ShortStatusLine(line))
    else Success(EntryOf(line))
  }

  /** `k` is the first non-blank line the parser rejects. */
  predicate FirstRejected(lines: seq<string>, k: int) {
    && 0 <= k < |lines|
    && !IsBlank(lines[k]) && !Parsable(lines[k])
    && forall j :: 0 <= j < k ==> IsBlank(lines[j]) || Parsable(lines[j])
  }

  /** What the loop of `get_status` reports for already-split lines: it
      succeeds exactly when every non-blank line is accepted, and then with
      one entry per non-blank line, in order; otherwise it reports the first
      rejected line. */
  ghost predicate Reports(lines: seq<string>, r: Result<seq<FileEntry>, ParseError>) {
    && (r.Success? <==> forall k :: 0 <= k < |lines| && !IsBlank(lines[k]) ==> Parsable(lines[k]))
    && (r.Success? ==> |r.value| == |NonBlank(lines)|)
    && (r.Success? ==> forall k :: 0 <= k < |r.value| ==> r.value[k] == EntryOf(NonBlank(lines)[k]))
    && (r.Failure? ==> exists k :: FirstRejected(lines, k) && r.error == ShortStatusLine(lines[k]))
  }

  /** One iteration of the loop, read from the last line backwards: a blank
      line changes nothing, a rejected line aborts, and an accepted one puts
      its entry in front unless a later line aborted. */
  function StatusStep(line: string, rest: Result<seq<FileEntry>, ParseError>): Result<seq<FileEntry>, ParseError> {
    if IsBlank(line) then rest
    else match ParseLine(line)
      case Failure(e) => Failure(e)
      case Success(entry) => if rest.Failure? then rest else Success([entry] + rest.value)
  }

  /** The loop of `get_status` over already-split lines: blank lines are
      skipped, every other line yields exactly one entry, in order, and the
      first line with a one-character non-`M` code aborts the whole parse. */
  function ParseLines(lines: seq<string>): (r: Result<seq<FileEntry>, ParseError>)
    ensures Reports(lines, r)
    decreases |lines|
  {
    if lines == [] then Success([])
    else
      var rest := ParseLines(lines[1..]);
      StatusStepKeeps(lines, rest);
      StatusStep(lines[0], rest)
  }

  /** One more line in front keeps the report right. */
  lemma StatusStepKeeps(lines: seq<string>, rest: Result<seq<FileEntry>, ParseError>)
    requires |lines| >= 1 && Reports(lines[1..], rest)
    ensures Reports(lines, StatusStep(lines[0], rest))
  {
    if IsBlank(lines[0]) {
      SkipBlank(lines, rest);
    } else if !Parsable(lines[0]) {
      RejectFirst(lines);
    } else if rest.Failure? {
      RejectLater(lines, rest);
    } else {
      AcceptFirst(lines, rest);
    }
  }

  /** A blank first line changes nothing. */
  lemma SkipBlank(lines: seq<string>, rest: Result<seq<FileEntry>, ParseError>)
    requires |lines| >= 1 && IsBlank(lines[0]) && Reports(lines[1..], rest)
    ensures Reports(lines, rest)
  {
    var tail := lines[1..];
    assert NonBlank(lines) == NonBlank(tail);
    assert forall k :: 1 <= k < |lines| ==> lines[k] == tail[k - 1];
    if rest.Failure? {
      var k :| FirstRejected(tail, k) && rest.error == ShortStatusLine(tail[k]);
      assert FirstRejected(lines, k + 1);
    }
  }

  /** A rejected first line is the error. */
  lemma RejectFirst(lines: seq<string>)
    requires |lines| >= 1 && !IsBlank(lines[0]) && !Parsable(lines[0])
    ensures Reports(lines, Failure(ShortStatusLine(lines[0])))
  {
    assert FirstRejected(lines, 0);
  }

  /** Behind an accepted first line, a later rejected line is the error. */
  lemma RejectLater(lines: seq<string>, rest: Result<seq<FileEntry>, ParseError>)
    requires |lines| >= 1 && !IsBlank(lines[0]) && Parsable(lines[0])
    requires rest.Failure? && Reports(lines[1..], rest)
    ensures Reports(lines, rest)
  {
    var tail := lines[1..];
    var k :| FirstRejected(tail, k) && rest.error == ShortStatusLine(tail[k]);
    assert lines[k + 1] == tail[k];
    assert forall j :: 1 <= j < k + 1 ==> lines[j] == tail[j - 1];
    assert FirstRejected(lines, k + 1);
  }

  /** An accepted first line puts its entry in front of the others. */
  lemma AcceptFirst(lines: seq<string>, rest: Result<seq<FileEntry>, ParseError>)
    requires |lines| >= 1 && !IsBlank(lines[0]) && Parsable(lines[0])
    requires rest.Success? && Reports(lines[1..], rest)
    ensures Reports(lines, Success([EntryOf(lines[0])] + rest.value))
  {
    var tail := lines[1..];
    var kept := NonBlank(lines);
    assert kept == [lines[0]] + NonBlank(tail);
    var v := [EntryOf(lines[0])] + rest.value;
    forall k | 0 <= k < |v|
      ensures v[k] == EntryOf(kept[k])
    {
      if k > 0 {
        assert v[k] == rest.value[k - 1] && kept[k] == NonBlank(tail)[k - 1];
      }
    }
    forall k | 0 <= k < |lines| && !IsBlank(lines[k])
      ensures Parsable(lines[k])
    {
      if k > 0 {
        assert lines[k] == tail[k - 1];
      }
    }
  }

  /** The lines `get_status` iterates over: the stripped output, split at
      newlines. */
  function StatusLines(output: string): seq<string> {
    Split(Strip(output), '\n')
  }

  /** `get_status`'s parse of the porcelain output, as written: the WHOLE
      output is stripped before splitting, so leading whitespace of the first
      line is lost along with the trailing newline. */
  function ParsePorcelain(output: string): (r: Result<seq<FileEntry>, ParseError>)
    ensures IsBlank(output) ==> r == Success([])
    ensures Reports(StatusLines(output), r)
  {
    var lines := StatusLines(output);
    assert IsBlank(output) ==> lines == [""] by {
      if IsBlank(output) {
        assert Strip(output) == [];
        assert '\n' !in Strip(output);
      }
    }
    ParseLines(lines)
  }

  /** The first line `get_status` sees in non-blank output is itself
      non-blank. */
  lemma {:induction false} FirstStatusLineVisible(output: string)
    requires !IsBlank(output)
    ensures !IsBlank(StatusLines(output)[0])
  {
    var s := Strip(output);
    assert !IsSpace(s[0]);
    if '\n' in s {
      var i := IndexOf(s, '\n');
      assert i != 0;
      assert StatusLines(output)[0] == s[..i];
      assert s[..i][0] == s[0];
    } else {
      assert StatusLines(output) == [s];
    }
  }

  /** The parse finds no file exactly when the output is blank. */
  lemma NothingParsedIffBlank(output: string)
    ensures ParsePorcelain(output) == Success([]) <==> IsBlank(output)
  {
    if !IsBlank(output) && ParsePorcelain(output).Success? {
      var lines := StatusLines(output);
      FirstStatusLineVisible(output);
      assert lines[0] in NonBlank(lines);
    }
  }

  /** The parse the code evidently intends: only trailing whitespace (the
      final newline) is dropped before splitting, so every line keeps its
      two-column status code. */
  function ParsePorcelainIntended(output: string): (r: Result<seq<FileEntry>, ParseError>)
    ensures IsBlank(output) ==> r == Success([])
  {
    assert IsBlank(output) ==> StripEnd(output) == [];
    ParseLines(Split(StripEnd(output), '\n'))
  }

  /** One record of porcelain output as git prints it: `XY PATH`. */
  datatype Record = Record(x: char, y: char, path: string)

  /** Records git can print: a path that is non-empty, on one line and ends
      in a visible character, and a code without newlines. */
  predicate WellFormed(rec: Record) {
    && rec.x != '\n' && rec.y != '\n'
    && |rec.path| >= 1 && '\n' !in rec.path && !IsSpace(rec.path[|rec.path| - 1])
  }

  function RenderLine(rec: Record): string {
    [rec.x, rec.y, ' '] + rec.path
  }

  /** `git status --porcelain` output for the given records: one line per
      record, each terminated by a newline; nothing for a clean tree. */
  function Render(recs: seq<Record>): string {
    if recs == [] then "" else Join(Lines(recs), '\n') + "\n"
  }

  /** The printed lines, without their newlines. */
  function Lines(recs: seq<Record>): (ls: seq<string>)
    ensures |ls| == |recs|
  {
    seq(|recs|, k requires 0 <= k < |recs| => RenderLine(recs[k]))
  }

  /** The entries a reader of the records expects. */
  function Expected(recs: seq<Record>): (es: seq<FileEntry>)
    ensures |es| == |recs|
  {
    seq(|recs|, k requires 0 <= k < |recs| => FileEntry(recs[k].path, Classify(recs[k].x, recs[k].y)))
  }

  /** What the parser needs to know about one line it reads: a single
      accepted line that ends in a visible character and yields `e`. */
  predicate Accepted(l: string, e: FileEntry) {
    && '\n' !in l && !IsBlank(l) && Parsable(l)
    && |l| >= 1 && !IsSpace(l[|l| - 1]) && EntryOf(l) == e
  }

  /** Every line git prints is accepted and yields its path and kind. */
  lemma RenderedLine(rec: Record)
    requires WellFormed(rec)
    ensures Accepted(RenderLine(rec), FileEntry(rec.path, Classify(rec.x, rec.y)))
  {
    var l := RenderLine(rec);
    var p := rec.path;
    assert l[|l| - 1] == p[|p| - 1];
    assert l[3..] == p;
  }

  /** The same, by position in the output. */
  lemma LineAt(recs: seq<Record>, k: int)
    requires 0 <= k < |recs| && WellFormed(recs[k])
    ensures Accepted(Lines(recs)[k], Expected(recs)[k])
  {
    assert Lines(recs)[k] == RenderLine(recs[k]);
    assert Expected(recs)[k] == FileEntry(recs[k].path, Classify(recs[k].x, recs[k].y));
    RenderedLine(recs[k]);
  }

  /** A single accepted line parses to its own entry. */
  lemma SingleLine(l: string)
    requires !IsBlank(l) && Parsable(l)
    ensures ParseLines([l]) == Success([EntryOf(l)])
  {
    var r := ParseLines([l]);
    assert [l][0] == l;
    assert r.Success?;
    NonBlankIdentity([l]);
    assert |r.value| == 1 && r.value[0] == EntryOf(l);
    assert r.value == [EntryOf(l)];
  }

  /** The intended parse recovers, in order, every path git printed and the
      classification of its code. */
  lemma IntendedRoundTrip(recs: seq<Record>)
    requires forall k :: 0 <= k < |recs| ==> WellFormed(recs[k])
    ensures ParsePorcelainIntended(Render(recs)) == Success(Expected(recs))
  {
    if recs != [] {
      IntendedLines(recs);
      LinesParse(recs);
    } else {
      assert Expected(recs) == [];
    }
  }

  /** Dropping the final newline and splitting gives back the printed lines. */
  lemma IntendedLines(recs: seq<Record>)
    requires recs != [] && forall k :: 0 <= k < |recs| ==> WellFormed(recs[k])
    ensures Split(StripEnd(Render(recs)), '\n') == Lines(recs)
  {
    var lines := Lines(recs);
    LineAt(recs, |lines| - 1);
    JoinEndsVisible(lines, '\n');
    StripEndNewline(Join(lines, '\n'));
    forall k | 0 <= k < |lines|
      ensures '\n' !in lines[k]
    {
      LineAt(recs, k);
    }
    SplitJoin(lines, '\n');
  }

  /** The loop turns the printed lines into the expected entries. */
  lemma LinesParse(recs: seq<Record>)
    requires forall k :: 0 <= k < |recs| ==> WellFormed(recs[k])
    ensures ParseLines(Lines(recs)) == Success(Expected(recs))
  {
    var lines := Lines(recs);
    forall k | 0 <= k < |lines|
      ensures !IsBlank(lines[k]) && Parsable(lines[k])
    {
      LineAt(recs, k);
    }
    NonBlankIdentity(lines);
    var r := ParseLines(lines);
    assert r.Success? && |r.value| == |lines|;
    forall k | 0 <= k < |lines|
      ensures r.value[k] == Expected(recs)[k]
    {
      LineAt(recs, k);
      assert r.value[k] == EntryOf(lines[k]);
    }
    assert r.value == Expected(recs);
  }

  /** As long as the output does not start with whitespace, stripping it
      whole is harmless: both parses agree. */
  lemma AgreeWithoutLeadingSpace(output: string)
    requires output == [] || !IsSpace(output[0])
    ensures ParsePorcelain(output) == ParsePorcelainIntended(output)
  {
    assert StripStart(output) == output;
    assert StatusLines(output) == Split(StripEnd(output), '\n');
  }

  /** A single record renders as its line and a newline. */
  lemma RenderSingle(rec: Record)
    ensures Render([rec]) == RenderLine(rec) + "\n"
  {
    assert Lines([rec]) == [RenderLine(rec)];
  }

  /** The code as written, on git's output for a tree whose only change is
      an unstaged modification of `path`: the leading space of the code is
      stripped away, the code becomes `M ` and the name loses its first
      character. */
  lemma ShiftedParse(path: string)
    requires WellFormed(Record(' ', 'M', path))
    ensures ParsePorcelain(RenderLine(Record(' ', 'M', path)) + "\n") == Success([FileEntry(path[1..], ModifiedStaged)])
  {
    ShiftedLines(path);
    ShiftedCode(path);
    OneParsedLine(RenderLine(Record(' ', 'M', path)) + "\n", ['M', ' '] + path);
  }

  /** The lines the code as written splits that output into: one, with the
      leading space gone. */
  lemma ShiftedLines(path: string)
    requires WellFormed(Record(' ', 'M', path))
    ensures StatusLines(RenderLine(Record(' ', 'M', path)) + "\n") == [['M', ' '] + path]
  {
    ShiftedStrip(path);
    ShiftedCode(path);
    OneStatusLine(RenderLine(Record(' ', 'M', path)) + "\n", ['M', ' '] + path);
  }

  /** The shifted line: one line, accepted, a staged modification of the
      path without its first character. */
  lemma ShiftedCode(path: string)
    requires WellFormed(Record(' ', 'M', path))
    ensures var shifted := ['M', ' '] + path;
      && '\n' !in shifted && !IsBlank(shifted) && Parsable(shifted)
      && EntryOf(shifted) == FileEntry(path[1..], ModifiedStaged)
  {
    var shifted := ['M', ' '] + path;
    assert !IsSpace(shifted[0]);
    assert shifted[3..] == path[1..];
  }

  /** Output that strips to a single line is that one line. */
  lemma OneStatusLine(output: string, line: string)
    requires Strip(output) == line && '\n' !in line
    ensures StatusLines(output) == [line]
  {
    SplitSingle(line, '\n');
  }

  /** Output whose lines are one accepted line parses to that line's entry. */
  lemma OneParsedLine(output: string, line: string)
    requires StatusLines(output) == [line] && !IsBlank(line) && Parsable(line)
    ensures ParsePorcelain(output) == Success([EntryOf(line)])
  {
    SingleLine(line);
  }

  /** Stripping that output drops the newline and the code's leading space. */
  lemma ShiftedStrip(path: string)
    requires WellFormed(Record(' ', 'M', path))
    ensures Strip(RenderLine(Record(' ', 'M', path)) + "\n") == ['M', ' '] + path
  {
    var shifted := ['M', ' '] + path;
    assert RenderLine(Record(' ', 'M', path)) + "\n" == [' '] + shifted + "\n";
    assert shifted[0] == 'M' && shifted[|shifted| - 1] == path[|path| - 1];
    StripPadded([' '], shifted, "\n");
  }

  /** Counterexample to the code as written: for every unstaged
      modification git reports on the first line (` M a.txt`, say), the
      parse as written and the intended parse disagree. */
  lemma FirstLineShiftCounterexample(path: string)
    requires WellFormed(Record(' ', 'M', path))
    ensures ParsePorcelain(Render([Record(' ', 'M', path)])) == Success([FileEntry(path[1..], ModifiedStaged)])
    ensures ParsePorcelainIntended(Render([Record(' ', 'M', path)])) == Success([FileEntry(path, Modified)])
    ensures ParsePorcelain(Render([Record(' ', 'M', path)])) != ParsePorcelainIntended(Render([Record(' ', 'M', path)]))
  {
    var rec := Record(' ', 'M', path);
    RenderSingle(rec);
    ShiftedParse(path);
    IntendedRoundTrip([rec]);
    assert Expected([rec]) == [FileEntry(path, Modified)];
  }
}
