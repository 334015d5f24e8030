/** The parser `get_branches` applies to the output of `git branch`: one
    branch per line, the checked-out one marked with a leading `*`. */
module Branches {
  import opened Outcomes
  import opened Text

  datatype Branch = Branch(name: string, current: bool)

  /** The branches in listing order and the name of the current one. */
  datatype Listing = Listing(branches: seq<Branch>, current: Option<string>)

  /** Python `line.startswith('*')`. */
  predicate Starred(line: string) {
    |line| >= 1 && line[0] == '*'
  }

  /** Python `line[2:]`. */
  function AfterMarker(line: string): string {
    if |line| >= 2 then line[2..] else ""
  }

  /** The branch a non-blank line describes. */
  function BranchOf(line: string): Branch {
    if Starred(line) then Branch(Strip(AfterMarker(line)), true) else Branch(Strip(line), false)
  }

  /** `k` is the last current branch of the listing. */
  predicate LastCurrent(bs: seq<Branch>, k: int) {
    0 <= k < |bs| && bs[k].current && forall j :: k < j < |bs| ==> !bs[j].current
  }

  /** `bs` are the branches the non-blank lines describe: one each, in
      order. */
  predicate Describes(bs: seq<Branch>, lines: seq<string>) {
    && |bs| == |NonBlank(lines)|
    && forall k :: 0 <= k < |bs| ==> bs[k] == BranchOf(NonBlank(lines)[k])
  }

  /** `current` names the last current branch of `bs`, and is absent exactly
      when no branch is current. */
  predicate ReportsCurrent(bs: seq<Branch>, current: Option<string>) {
    && (current.None? <==> forall k :: 0 <= k < |bs| ==> !bs[k].current)
    && forall k :: 0 <= k < |bs| && LastCurrent(bs, k) ==> current == Some(bs[k].name)
  }

  /** One iteration of the loop, read from the last line backwards: a blank
      line changes nothing, any other line puts its branch in front. */
  function Step(line: string, rest: Listing): Listing {
    if IsBlank(line) then rest
    else
      var b := BranchOf(line);
      Listing([b] + rest.branches, if rest.current.Some? then rest.current else if b.current then Some(b.name) else None)
  }

  /** The loop of `get_branches` over already-split lines: one branch per
      non-blank line, in order, current exactly for the starred lines; the
      reported current branch is the last starred one, or none. */
  function ParseBranchLines(lines: seq<string>): (r: Listing)
    ensures Describes(r.branches, lines)
    ensures forall k :: 0 <= k < |r.branches| ==> (r.branches[k].current <==> Starred(NonBlank(lines)[k]))
    ensures ReportsCurrent(r.branches, r.current)
    decreases |lines|
  {
    if lines == [] then Listing([], None)
    else
      var rest := ParseBranchLines(lines[1..]);
      StepKeeps(lines, rest);
      var r := Step(lines[0], rest);
      Flags(r.branches, lines);
      r
  }

  /** The current flags follow the stars. */
  lemma Flags(bs: seq<Branch>, lines: seq<string>)
    requires Describes(bs, lines)
    ensures forall k :: 0 <= k < |bs| ==> (bs[k].current <==> Starred(NonBlank(lines)[k]))
  {
  }

  /** A step extends the description and the current branch from the rest
      of the lines to all of them. */
  lemma StepKeeps(lines: seq<string>, rest: Listing)
    requires lines != []
    requires Describes(rest.branches, lines[1..]) && ReportsCurrent(rest.branches, rest.current)
    ensures Describes(Step(lines[0], rest).branches, lines)
    ensures ReportsCurrent(Step(lines[0], rest).branches, Step(lines[0], rest).current)
  {
    if IsBlank(lines[0]) {
      assert NonBlank(lines) == NonBlank(lines[1..]);
    } else {
      var b := BranchOf(lines[0]);
      assert NonBlank(lines) == [lines[0]] + NonBlank(lines[1..]);
      DescribesCons(lines, rest.branches);
      Prepend(b, rest);
    }
  }

  /** The branch of a non-blank first line goes in front. */
  lemma DescribesCons(lines: seq<string>, bs: seq<Branch>)
    requires lines != [] && !IsBlank(lines[0]) && NonBlank(lines) == [lines[0]] + NonBlank(lines[1..])
    requires Describes(bs, lines[1..])
    ensures Describes([BranchOf(lines[0])] + bs, lines)
  {
    var bs' := [BranchOf(lines[0])] + bs;
    var nb := NonBlank(lines);
    forall k | 0 <= k < |bs'| ensures bs'[k] == BranchOf(nb[k]) {
      if k > 0 {
        assert bs'[k] == bs[k - 1];
        assert nb[k] == NonBlank(lines[1..])[k - 1];
      }
    }
  }

  /** Putting a branch in front of a listing: the current branch stays the
      last current one. */
  lemma Prepend(b: Branch, rest: Listing)
    requires ReportsCurrent(rest.branches, rest.current)
    ensures ReportsCurrent([b] + rest.branches,
      if rest.current.Some? then rest.current else if b.current then Some(b.name) else None)
  {
    var current := if rest.current.Some? then rest.current else if b.current then Some(b.name) else None;
    var bs := [b] + rest.branches;
    assert forall k :: 1 <= k < |bs| ==> bs[k] == rest.branches[k - 1];
    if rest.current.Some? {
      var j :| 0 <= j < |rest.branches| && rest.branches[j].current;
      assert bs[j + 1].current;
    } else if b.current {
      assert bs[0].current;
    } else {
      assert forall k :: 0 <= k < |bs| ==> !bs[k].current;
    }
    forall k | LastCurrent(bs, k) ensures current == Some(bs[k].name) {
      if k > 0 {
        forall j | k - 1 < j < |rest.branches| ensures !rest.branches[j].current {
          assert bs[j + 1] == rest.branches[j];
        }
        assert LastCurrent(rest.branches, k - 1);
      }
    }
  }

  /** `get_branches`' parse of the `git branch` output. */
  function ParseBranches(output: string): (r: Listing)
    ensures Describes(r.branches, Split(Strip(output), '\n'))
    ensures forall k :: 0 <= k < |r.branches| ==>
      (r.branches[k].current <==> Starred(NonBlank(Split(Strip(output), '\n'))[k]))
    ensures ReportsCurrent(r.branches, r.current)
  {
    ParseBranchLines(Split(Strip(output), '\n'))
  }

  /** Names git accepts for a branch: non-empty, no whitespace, no `*`. */
  predicate ValidName(name: string) {
    |name| >= 1 && forall i :: 0 <= i < |name| ==> !IsSpace(name[i]) && name[i] != '*'
  }

  /** The line `git branch` prints for a branch. */
  function BranchLine(b: Branch): string {
    (if b.current then "* " else "  ") + b.name
  }

  /** `git branch` output for a listing; nothing when there are no branches. */
  function Render(bs: seq<Branch>): string {
    if bs == [] then "" else Join(Lines(bs), '\n') + "\n"
  }

  /** What the parser needs to know about one line it sees: a single
      visible line that describes `b` and ends in a visible character. */
  predicate Shows(l: string, b: Branch) {
    && '\n' !in l && !IsBlank(l) && BranchOf(l) == b
    && |l| >= 1 && !IsSpace(l[|l| - 1])
  }

  /** A valid name is a single line that starts and ends visibly and has no
      marker. */
  lemma NameFacts(n: string)
    requires ValidName(n)
    ensures '\n' !in n && !IsBlank(n) && n[0] != '*'
    ensures !IsSpace(n[0]) && !IsSpace(n[|n| - 1]) && Strip(n) == n
  {
    StripVisible(n);
  }

  /** A bare name shows the branch of that name that is not current. */
  lemma BareShows(n: string)
    requires ValidName(n)
    ensures Shows(n, Branch(n, false))
  {
    NameFacts(n);
  }

  /** A valid name behind a single-line prefix ends a single line that is
      not blank and ends visibly. */
  lemma Prefixed(p: string, n: string)
    requires ValidName(n) && '\n' !in p
    ensures var l := p + n; '\n' !in l && !IsBlank(l) && |l| >= 1 && !IsSpace(l[|l| - 1])
  {
    NameFacts(n);
    var l := p + n;
    assert l[|p|] == n[0];
    assert l[|l| - 1] == n[|n| - 1];
  }

  /** The line of the checked-out branch has no indentation and shows it. */
  lemma MarkedShows(n: string)
    requires ValidName(n)
    ensures StripStart("* " + n) == "* " + n && Shows("* " + n, Branch(n, true))
  {
    var l := "* " + n;
    Prefixed("* ", n);
    assert l[0] == '*' && AfterMarker(l) == n;
    StripStartVisible(l);
    NameFacts(n);
  }

  /** The line of any other branch shows it, and without its indentation it
      is the bare name. */
  lemma IndentedShows(n: string)
    requires ValidName(n)
    ensures StripStart("  " + n) == n && Shows("  " + n, Branch(n, false))
  {
    var l := "  " + n;
    Prefixed("  ", n);
    NameFacts(n);
    StripIndented("  ", n);
    assert l[0] == ' ';
  }

  /** Every printed line shows its branch, also once the whole-output strip
      has removed its leading whitespace. */
  lemma PrintedLine(b: Branch)
    requires ValidName(b.name)
    ensures Shows(BranchLine(b), b) && Shows(StripStart(BranchLine(b)), b)
  {
    if b.current {
      MarkedShows(b.name);
    } else {
      IndentedShows(b.name);
      BareShows(b.name);
    }
  }

  /** The printed lines of a listing. */
  function Lines(bs: seq<Branch>): (ls: seq<string>)
    ensures |ls| == |bs|
  {
    seq(|bs|, k requires 0 <= k < |bs| => BranchLine(bs[k]))
  }

  /** The lines `get_branches` sees for printed output: the printed lines,
      the first one without its leading whitespace. */
  function SeenLines(bs: seq<Branch>): (ls: seq<string>)
    requires bs != []
    ensures |ls| == |bs|
  {
    [StripStart(BranchLine(bs[0]))] + Lines(bs)[1..]
  }

  /** The rendered output is its first line followed by everything else. */
  lemma RenderFirst(bs: seq<Branch>, seen: seq<string>)
    requires bs != [] && |seen| == |bs| && seen[1..] == Lines(bs)[1..]
    ensures var rest := if |bs| == 1 then [] else ['\n'] + Join(Lines(bs)[1..], '\n');
      && Render(bs) == BranchLine(bs[0]) + (rest + "\n")
      && Join(seen, '\n') + "\n" == seen[0] + (rest + "\n")
  {
    var ls := Lines(bs);
    assert ls[0] == BranchLine(bs[0]);
    JoinFirst(ls, '\n');
    JoinFirst(seen, '\n');
  }

  lemma StripRendered(bs: seq<Branch>)
    requires bs != [] && forall k :: 0 <= k < |bs| ==> ValidName(bs[k].name)
    ensures Strip(Render(bs)) == Join(SeenLines(bs), '\n')
  {
    var seen := SeenLines(bs);
    assert !IsBlank(BranchLine(bs[0])) by {
      PrintedLine(bs[0]);
    }
    RenderFirst(bs, seen);
    var rest := if |bs| == 1 then [] else ['\n'] + Join(Lines(bs)[1..], '\n');
    StripStartAppend(BranchLine(bs[0]), rest + "\n");
    var body := Join(seen, '\n');
    assert StripStart(Render(bs)) == body + "\n";
    LastVisible(bs, body);
    StripEndNewline(body);
  }

  /** The seen lines end in a visible character. */
  lemma LastVisible(bs: seq<Branch>, body: string)
    requires bs != [] && forall k :: 0 <= k < |bs| ==> ValidName(bs[k].name)
    requires body == Join(SeenLines(bs), '\n')
    ensures |body| >= 1 && !IsSpace(body[|body| - 1])
  {
    var seen := SeenLines(bs);
    SeenLine(bs, |seen| - 1);
    JoinEndsVisible(seen, '\n');
  }

  /** Parsing what `git branch` prints gives back every branch, in order,
      with its current flag, and the current branch is the last one marked. */
  lemma RoundTrip(bs: seq<Branch>)
    requires forall k :: 0 <= k < |bs| ==> ValidName(bs[k].name)
    ensures ParseBranches(Render(bs)).branches == bs
    ensures ReportsCurrent(bs, ParseBranches(Render(bs)).current)
  {
    if bs == [] {
      assert Strip("") == "";
      SplitSingle("", '\n');
      assert NonBlank([""]) == [];
    } else {
      var seen := SeenLines(bs);
      StripRendered(bs);
      SeenFacts(bs);
      SplitJoin(seen, '\n');
      SeenParse(bs);
    }
  }

  /** Every seen line shows its branch. */
  lemma SeenLine(bs: seq<Branch>, k: int)
    requires 0 <= k < |bs| && ValidName(bs[k].name)
    ensures Shows(SeenLines(bs)[k], bs[k])
  {
    if k == 0 {
      assert SeenLines(bs)[k] == StripStart(BranchLine(bs[k]));
      PrintedLine(bs[k]);
    } else {
      assert SeenLines(bs)[k] == Lines(bs)[k] == BranchLine(bs[k]);
      PrintedLine(bs[k]);
    }
  }

  /** The seen lines are separate, visible lines. */
  lemma SeenFacts(bs: seq<Branch>)
    requires bs != [] && forall k :: 0 <= k < |bs| ==> ValidName(bs[k].name)
    ensures Unseparated(SeenLines(bs), '\n')
    ensures forall k :: 0 <= k < |SeenLines(bs)| ==>
      !IsBlank(SeenLines(bs)[k]) && BranchOf(SeenLines(bs)[k]) == bs[k]
  {
    forall k | 0 <= k < |SeenLines(bs)|
      ensures '\n' !in SeenLines(bs)[k] && !IsBlank(SeenLines(bs)[k]) && BranchOf(SeenLines(bs)[k]) == bs[k]
    {
      SeenLine(bs, k);
    }
  }

  /** The branch loop gives back the listing from the seen lines. */
  lemma SeenParse(bs: seq<Branch>)
    requires bs != [] && forall k :: 0 <= k < |bs| ==> ValidName(bs[k].name)
    ensures ParseBranchLines(SeenLines(bs)).branches == bs
  {
    SeenFacts(bs);
    DescribedExactly(ParseBranchLines(SeenLines(bs)).branches, SeenLines(bs), bs);
  }

  /** Lines that are all visible and describe `bs` one by one are described
      by `bs` alone. */
  lemma DescribedExactly(xs: seq<Branch>, lines: seq<string>, bs: seq<Branch>)
    requires |lines| == |bs| && forall k :: 0 <= k < |lines| ==> !IsBlank(lines[k]) && BranchOf(lines[k]) == bs[k]
    requires Describes(xs, lines)
    ensures xs == bs
  {
    NonBlankIdentity(lines);
  }
}
