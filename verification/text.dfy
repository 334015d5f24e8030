/** Python string primitives the web app relies on: `str.isspace`, `str.strip`,
    `str.rstrip`, `str.split('\n')` and the `in` substring test. */
module Text {

  /** The characters Python's `str.isspace` accepts. */
  predicate IsSpace(c: char) {
    || c == ' '
    || '\t' <= c <= '\r'
    || '\U{1C}' <= c <= '\U{1F}'
    || c == '\U{85}' || c == '\U{A0}' || c == '\U{1680}'
    || '\U{2000}' <= c <= '\U{200A}'
    || c == '\U{2028}' || c == '\U{2029}' || c == '\U{202F}' || c == '\U{205F}' || c == '\U{3000}'
  }

  /** `not s.strip()` in Python: the string holds nothing but whitespace. */
  predicate IsBlank(s: string) {
    forall k :: 0 <= k < |s| ==> IsSpace(s[k])
  }

  /** Python `s.lstrip()`: the suffix left after dropping leading whitespace. */
  function StripStart(s: string): (r: string)
    ensures |r| <= |s| && r == s[|s| - |r|..]
    ensures r == [] || !IsSpace(r[0])
    ensures forall k :: 0 <= k < |s| - |r| ==> IsSpace(s[k])
    decreases |s|
  {
    if s != [] && IsSpace(s[0]) then StripStart(s[1..]) else s
  }

  /** Python `s.rstrip()`: the prefix left after dropping trailing whitespace. */
  function StripEnd(s: string): (r: string)
    ensures |r| <= |s| && r == s[..|r|]
    ensures r == [] || !IsSpace(r[|r| - 1])
    ensures forall k :: |r| <= k < |s| ==> IsSpace(s[k])
    decreases |s|
  {
    if s != [] && IsSpace(s[|s| - 1]) then StripEnd(s[..|s| - 1]) else s
  }

  /** Python `s.strip()`. */
  function Strip(s: string): (r: string)
    ensures |r| <= |s|
    ensures r == [] <==> IsBlank(s)
    ensures r == [] || (!IsSpace(r[0]) && !IsSpace(r[|r| - 1]))
  {
    var t := StripStart(s);
    var r := StripEnd(t);
    assert r == [] ==> IsBlank(s) by {
      if r == [] {
        assert t == [];
      }
    }
    assert r != [] ==> !IsBlank(s) by {
      if r != [] {
        assert t[0] == s[|s| - |t|];
      }
    }
    r
  }

  /** Position of the first occurrence of `c` in `s`. */
  function IndexOf(s: string, c: char): (i: nat)
    requires c in s
    ensures i < |s| && s[i] == c && c !in s[..i]
  {
    if s[0] == c then 0
    else
      var j := IndexOf(s[1..], c);
      assert s[..j + 1] == [s[0]] + s[1..][..j];
      j + 1
  }

  /** Pieces joined back with the separator between them (Python `sep.join`). */
  function Join(pieces: seq<string>, sep: char): string
    requires |pieces| >= 1
    decreases |pieces|
  {
    if |pieces| == 1 then pieces[0] else pieces[0] + [sep] + Join(pieces[1..], sep)
  }

  /** No piece contains the separator. */
  predicate Unseparated(pieces: seq<string>, sep: char) {
    forall k :: 0 <= k < |pieces| ==> sep !in pieces[k]
  }

  /** Python `s.split(sep)` for a one-character separator: at least one piece,
      pieces between consecutive separators, empty pieces kept. */
  function Split(s: string, sep: char): (r: seq<string>)
    ensures |r| >= 1
    ensures Unseparated(r, sep)
    decreases |s|
  {
    if sep in s then
      var i := IndexOf(s, sep);
      [s[..i]] + Split(s[i + 1..], sep)
    else [s]
  }

  /** A string without the separator is a single piece. */
  lemma SplitSingle(s: string, sep: char)
    requires sep !in s
    ensures Split(s, sep) == [s]
  {
  }

  /** Splitting and joining are inverse: joining the pieces rebuilds the input. */
  lemma {:induction false} JoinSplit(s: string, sep: char)
    ensures Join(Split(s, sep), sep) == s
    decreases |s|
  {
    if sep in s {
      var i := IndexOf(s, sep);
      var tail := Split(s[i + 1..], sep);
      JoinSplit(s[i + 1..], sep);
      JoinCons(s[..i], tail, sep);
      assert s == s[..i] + ([sep] + s[i + 1..]);
    } else {
      SplitSingle(s, sep);
    }
  }

  /** Joining a piece in front of others puts the separator between. */
  lemma JoinCons(p: string, rest: seq<string>, sep: char)
    requires |rest| >= 1
    ensures Join([p] + rest, sep) == p + ([sep] + Join(rest, sep))
  {
    var r := [p] + rest;
    assert r[0] == p && r[1..] == rest;
  }

  /** ... and, for separator-free pieces, the other way round. */
  lemma {:induction false} SplitJoin(pieces: seq<string>, sep: char)
    requires |pieces| >= 1 && Unseparated(pieces, sep)
    ensures Split(Join(pieces, sep), sep) == pieces
    decreases |pieces|
  {
    var p := pieces[0];
    if |pieces| > 1 {
      var rest := pieces[1..];
      assert Unseparated(rest, sep) by {
        assert forall k :: 0 <= k < |rest| ==> rest[k] == pieces[k + 1];
      }
      SplitJoin(rest, sep);
      JoinFirst(pieces, sep);
      SplitAt(p, Join(rest, sep), sep);
      assert pieces == [p] + rest;
    } else {
      SplitSingle(p, sep);
    }
  }

  /** The first separator ends the first piece. */
  lemma SplitAt(p: string, rest: string, sep: char)
    requires sep !in p
    ensures Split(p + ([sep] + rest), sep) == [p] + Split(rest, sep)
  {
    var s := p + ([sep] + rest);
    FirstSeparator(p, rest, sep);
    assert s[..|p|] == p && s[|p| + 1..] == rest;
  }

  /** The separator after a separator-free piece is the first one. */
  lemma FirstSeparator(p: string, rest: string, sep: char)
    requires sep !in p
    ensures var s := p + ([sep] + rest); sep in s && IndexOf(s, sep) == |p|
  {
    var s := p + ([sep] + rest);
    assert s[|p|] == sep;
    assert s[..|p|] == p;
  }

  /** The last character of a join is the last character of the last piece. */
  lemma {:induction false} JoinLast(pieces: seq<string>, sep: char)
    requires |pieces| >= 1 && |pieces[|pieces| - 1]| >= 1
    ensures var s := Join(pieces, sep); var l := pieces[|pieces| - 1];
      |s| >= 1 && s[|s| - 1] == l[|l| - 1]
    decreases |pieces|
  {
    if |pieces| > 1 {
      JoinLast(pieces[1..], sep);
    }
  }

  /** A join whose last piece ends in a visible character ends in one too. */
  lemma JoinEndsVisible(pieces: seq<string>, sep: char)
    requires |pieces| >= 1 && |pieces[|pieces| - 1]| >= 1
    requires !IsSpace(pieces[|pieces| - 1][|pieces[|pieces| - 1]| - 1])
    ensures |Join(pieces, sep)| >= 1 && !IsSpace(Join(pieces, sep)[|Join(pieces, sep)| - 1])
  {
    JoinLast(pieces, sep);
  }

  /** A join starts with its first piece. */
  lemma {:induction false} JoinFirst(pieces: seq<string>, sep: char)
    requires |pieces| >= 1
    ensures |pieces| == 1 ==> Join(pieces, sep) == pieces[0]
    ensures |pieces| > 1 ==> Join(pieces, sep) == pieces[0] + ([sep] + Join(pieces[1..], sep))
  {
  }

  /** Dropping leading whitespace only looks at the leading run. */
  lemma {:induction false} StripStartAppend(a: string, b: string)
    requires !IsBlank(a)
    ensures StripStart(a + b) == StripStart(a) + b
    decreases |a|
  {
    if IsSpace(a[0]) {
      assert (a + b)[1..] == a[1..] + b;
      StripStartAppend(a[1..], b);
    } else {
      assert (a + b)[0] == a[0];
    }
  }

  /** A string starting with a visible character has no leading whitespace. */
  lemma StripStartVisible(s: string)
    requires s == [] || !IsSpace(s[0])
    ensures StripStart(s) == s
  {
  }

  /** Leading whitespace in front of a string is dropped entirely. */
  lemma {:induction false} StripStartBlankPrefix(w: string, s: string)
    requires IsBlank(w)
    ensures StripStart(w + s) == StripStart(s)
    decreases |w|
  {
    if w == [] {
      assert w + s == s;
    } else {
      var ws := w + s;
      assert ws[0] == w[0] && ws[1..] == w[1..] + s;
      assert IsBlank(w[1..]) by {
        assert forall k :: 0 <= k < |w[1..]| ==> w[1..][k] == w[k + 1];
      }
      StripStartBlankPrefix(w[1..], s);
    }
  }

  /** Trailing whitespace behind a string is dropped entirely. */
  lemma {:induction false} StripEndBlankSuffix(s: string, v: string)
    requires IsBlank(v)
    ensures StripEnd(s + v) == StripEnd(s)
    decreases |v|
  {
    if v == [] {
      assert s + v == s;
    } else {
      var sv := s + v;
      var v' := v[..|v| - 1];
      assert sv[|sv| - 1] == v[|v| - 1] && sv[..|sv| - 1] == s + v';
      assert IsBlank(v') by {
        assert forall k :: 0 <= k < |v'| ==> v'[k] == v[k];
      }
      StripEndBlankSuffix(s, v');
    }
  }

  /** Whitespace on both sides of a string with visible ends is what strip
      removes. */
  lemma StripPadded(w: string, s: string, v: string)
    requires IsBlank(w) && IsBlank(v)
    requires s != [] && !IsSpace(s[0]) && !IsSpace(s[|s| - 1])
    ensures Strip(w + s + v) == s
  {
    var sv := s + v;
    assert w + s + v == w + sv;
    StripStartBlankPrefix(w, sv);
    assert sv[0] == s[0];
    StripStartVisible(sv);
    StripEndBlankSuffix(s, v);
    StripEndVisible(s);
  }

  /** Leading whitespace in front of a string with visible ends is what
      strip removes. */
  lemma StripIndented(w: string, s: string)
    requires IsBlank(w)
    requires s != [] && !IsSpace(s[0]) && !IsSpace(s[|s| - 1])
    ensures StripStart(w + s) == s && Strip(w + s) == s
  {
    StripStartBlankPrefix(w, s);
    StripStartVisible(s);
    StripEndVisible(s);
  }

  /** A string ending in a visible character has no trailing whitespace. */
  lemma StripEndVisible(s: string)
    requires s == [] || !IsSpace(s[|s| - 1])
    ensures StripEnd(s) == s
  {
  }

  /** A string with visible characters at both ends is left alone by strip. */
  lemma StripVisible(s: string)
    requires s == [] || (!IsSpace(s[0]) && !IsSpace(s[|s| - 1]))
    ensures Strip(s) == s
  {
    StripStartVisible(s);
  }

  /** Dropping trailing whitespace from a line followed by its newline gives
      the line back when it ends in a visible character. */
  lemma StripEndNewline(s: string)
    requires |s| >= 1 && !IsSpace(s[|s| - 1])
    ensures StripEnd(s + "\n") == s
  {
    assert (s + "\n")[..|s|] == s;
  }

  /** Occurrence of `needle` in `hay` starting at position `i`. */
  predicate OccursAt(hay: string, needle: string, i: int) {
    0 <= i && i + |needle| <= |hay| && hay[i..i + |needle|] == needle
  }

  /** Python `needle in hay` for strings. */
  function Contains(hay: string, needle: string): (r: bool)
    ensures r <==> exists i :: OccursAt(hay, needle, i)
    decreases |hay|
  {
    if |hay| < |needle| then
      assert forall i :: !OccursAt(hay, needle, i);
      false
    else if hay[..|needle|] == needle then
      assert OccursAt(hay, needle, 0);
      true
    else
      var found := Contains(hay[1..], needle);
      assert found ==> exists i :: OccursAt(hay, needle, i) by {
        if found {
          var j :| OccursAt(hay[1..], needle, j);
          assert hay[1..][j..j + |needle|] == hay[j + 1..j + 1 + |needle|];
          assert OccursAt(hay, needle, j + 1);
        }
      }
      assert (exists i :: OccursAt(hay, needle, i)) ==> found by {
        if i :| OccursAt(hay, needle, i) {
          assert i != 0;
          assert hay[1..][i - 1..i - 1 + |needle|] == hay[i..i + |needle|];
          assert OccursAt(hay[1..], needle, i - 1);
        }
      }
      found
  }

  /** Python's list comprehension `[l for l in lines if l.strip()]`. */
  function NonBlank(lines: seq<string>): (r: seq<string>)
    ensures |r| <= |lines|
    ensures forall k :: 0 <= k < |r| ==> !IsBlank(r[k]) && r[k] in lines
    ensures forall k :: 0 <= k < |lines| && !IsBlank(lines[k]) ==> lines[k] in r
    decreases |lines|
  {
    if lines == [] then []
    else if IsBlank(lines[0]) then NonBlank(lines[1..])
    else [lines[0]] + NonBlank(lines[1..])
  }

  /** The filter works line by line: filtering a concatenation filters each
      part, keeping order and repeats. */
  lemma {:induction false} NonBlankAppend(a: seq<string>, b: seq<string>)
    ensures NonBlank(a + b) == NonBlank(a) + NonBlank(b)
    decreases |a|
  {
    if a == [] {
      assert a + b == b;
    } else {
      var ab := a + b;
      assert ab[0] == a[0] && ab[1..] == a[1..] + b;
      NonBlankAppend(a[1..], b);
    }
  }

  /** A single line is kept exactly when it is not blank. */
  lemma NonBlankSingle(line: string)
    ensures NonBlank([line]) == if IsBlank(line) then [] else [line]
  {
    assert [line][1..] == [];
  }

  /** Without blank lines, the filter keeps everything. */
  lemma {:induction false} NonBlankIdentity(lines: seq<string>)
    requires forall k :: 0 <= k < |lines| ==> !IsBlank(lines[k])
    ensures NonBlank(lines) == lines
    decreases |lines|
  {
    if lines != [] {
      NonBlankIdentity(lines[1..]);
    }
  }
}
