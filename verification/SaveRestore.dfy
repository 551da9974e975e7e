/** Reading and writing the text of iptables-save: lines, chain lines, and the round trip. */
module SaveRestore {

  import opened Options
  import Flannel

  // ---------- what a line is ----------

  /** The first index from `i` on that holds no space. */
  function Skip(s: string, i: nat): (l: nat)
    requires i <= |s|
    ensures i <= l <= |s|
    decreases |s| - i
  {
    if i < |s| && s[i] == ' ' then Skip(s, i + 1) else i
  }

  /** The end of s[left..right] without its trailing spaces. */
  function Back(s: string, left: nat, right: nat): (r: nat)
    requires left <= right <= |s|
    ensures left <= r <= right
  {
    if left < right && s[right - 1] == ' ' then Back(s, left, right - 1) else right
  }

  /** The index of the first newline from `i` on, or the length when there is none. */
  function LineEnd(s: string, i: nat): (e: nat)
    requires i <= |s|
    ensures i <= e <= |s|
    decreases |s| - i
  {
    if i == |s| || s[i] == '\n' then i else LineEnd(s, i + 1)
  }

  function TrimFrom(s: string, left: nat): string
    requires left <= |s|
  {
    s[left..Back(s, left, |s|)]
  }

  function Trim(s: string): string { TrimFrom(s, Skip(s, 0)) }

  lemma {:induction false} SkipBeforeEnd(s: string, i: nat)
    requires i <= |s|
    ensures Skip(s, i) <= LineEnd(s, i)
    decreases |s| - i
  {
    if i < |s| && s[i] == ' ' {
      SkipBeforeEnd(s, i + 1);
    }
  }

  /**
   * The text returned for the line starting at `i`. A line that runs to the end of the buffer
   * without a newline is cut short: a lone character and text ending in a space are lost, and so
   * is a last character that follows a space.
   */
  function LineText(s: string, i: nat): string
    requires i <= |s|
  {
    SkipBeforeEnd(s, i);
    var left, e := Skip(s, i), LineEnd(s, i);
    if e < |s| then s[left..Back(s, left, e)]
    else if |s| <= left + 1 || s[|s| - 1] == ' ' then ""
    else if s[|s| - 2] == ' ' then s[left..Back(s, left, |s| - 1)]
    else s[left..]
  }

  function NextIndex(s: string, i: nat): (n: nat)
    requires i <= |s|
    ensures i < |s| ==> i < n
    ensures n <= |s|
  {
    var e := LineEnd(s, i);
    if e < |s| then e + 1 else |s|
  }

  method ReadLine(readIndex: nat, bytes: string) returns (line: string, next: nat)
    requires readIndex <= |bytes|
    ensures line == LineText(bytes, readIndex)
    ensures next == NextIndex(bytes, readIndex)
  {
    var current := readIndex;
    while current < |bytes|
      invariant readIndex <= current <= |bytes|
      invariant Skip(bytes, readIndex) == Skip(bytes, current)
      invariant LineEnd(bytes, readIndex) == LineEnd(bytes, current)
    {
      if bytes[current] == ' ' {
        current := current + 1;
      } else {
        break;
      }
    }
    var left := current;
    var right := -1;
    while current < |bytes|
      invariant left <= current <= |bytes|
      invariant left < |bytes| ==> bytes[left] != ' '
      invariant LineEnd(bytes, readIndex) == LineEnd(bytes, current)
      invariant right == -1 ==> current == left || (bytes[current - 1] != ' ' && current < |bytes|)
      invariant right != -1
                ==> left < right < current && bytes[current - 1] == ' ' && Back(bytes, left, current) == right
    {
      if bytes[current] == ' ' {
        if right == -1 {
          right := current;
        }
      } else if bytes[current] == '\n' || current == |bytes| - 1 {
        if current <= left {
          return "", current + 1;
        }
        if right == -1 {
          right := current;
          if current == |bytes| - 1 && bytes[current] != '\n' {
            right := current + 1;
          }
        }
        return bytes[left..right], current + 1;
      } else {
        right := -1;
      }
      current := current + 1;
    }
    return "", current;
  }

  // ---------- all lines of a buffer ----------

  function ReadAll(s: string, i: nat): seq<string>
    requires i <= |s|
    decreases |s| - i
  {
    if i == |s| then [] else [LineText(s, i)] + ReadAll(s, NextIndex(s, i))
  }

  /** A buffer in which every line ends with a newline. */
  function Unlines(lines: seq<string>): string {
    if lines == [] then "" else lines[0] + "\n" + Unlines(lines[1..])
  }

  ghost predicate NoNewlines(lines: seq<string>) {
    forall i :: 0 <= i < |lines| ==> '\n' !in lines[i]
  }

  ghost function Trimmed(lines: seq<string>): seq<string> {
    if lines == [] then [] else [Trim(lines[0])] + Trimmed(lines[1..])
  }

  /** `line` stands in `s` at `at`. */
  ghost predicate Stands(s: string, at: nat, line: string) {
    at + |line| <= |s| && forall k :: 0 <= k < |line| ==> s[at + k] == line[k]
  }

  lemma {:induction false} SkipShifts(s: string, at: nat, line: string, i: nat)
    requires Stands(s, at, line) && i <= |line|
    requires at + |line| < |s| && s[at + |line|] != ' '
    ensures Skip(s, at + i) == at + Skip(line, i)
    decreases |line| - i
  {
    if i < |line| {
      SkipShifts(s, at, line, i + 1);
    }
  }

  lemma {:induction false} LineEndShifts(s: string, at: nat, line: string, i: nat)
    requires Stands(s, at, line) && i <= |line| && '\n' !in line
    requires at + |line| < |s| && s[at + |line|] == '\n'
    ensures LineEnd(s, at + i) == at + |line|
    decreases |line| - i
  {
    if i < |line| {
      assert line[i] in line;
      LineEndShifts(s, at, line, i + 1);
    }
  }

  lemma {:induction false} BackShifts(s: string, at: nat, line: string, left: nat, right: nat)
    requires Stands(s, at, line) && left <= right <= |line|
    ensures Back(s, at + left, at + right) == at + Back(line, left, right)
  {
    if left < right {
      BackShifts(s, at, line, left, right - 1);
    }
  }

  lemma LineStands(s: string, at: nat, line: string)
    requires Stands(s, at, line) && '\n' !in line
    requires at + |line| < |s| && s[at + |line|] == '\n'
    ensures LineText(s, at) == Trim(line) && NextIndex(s, at) == at + |line| + 1
  {
    SkipShifts(s, at, line, 0);
    LineEndShifts(s, at, line, 0);
    var left := Skip(line, 0);
    assert Skip(s, at) == at + left && LineEnd(s, at) == at + |line|;
    BackShifts(s, at, line, left, |line|);
    SliceStands(s, at, line, left, Back(line, left, |line|));
  }

  lemma SliceStands(s: string, at: nat, line: string, left: nat, right: nat)
    requires Stands(s, at, line) && left <= right <= |line|
    ensures s[at + left..at + right] == line[left..right]
  {}

  lemma Regrouped(before: string, line: string, rest: string)
    ensures before + (line + "\n" + rest) == before + (line + "\n") + rest
  {}

  lemma StandsBetween(before: string, line: string, rest: string)
    ensures var s := before + (line + "\n") + rest;
            Stands(s, |before|, line) && |before| + |line| < |s| && s[|before| + |line|] == '\n'
  {}

  /** A terminated line is read off, and reading goes on after it. */
  lemma ReadOneLine(before: string, line: string, rest: string)
    requires '\n' !in line
    ensures var s, next := before + (line + "\n") + rest, before + (line + "\n");
            ReadAll(s, |before|) == [Trim(line)] + ReadAll(s, |next|)
  {
    StandsBetween(before, line, rest);
    LineStands(before + (line + "\n") + rest, |before|, line);
  }

  /** On a newline-terminated buffer iterated reading yields exactly the space-trimmed lines. */
  lemma {:induction false} ReadAllTerminated(before: string, lines: seq<string>)
    requires NoNewlines(lines)
    decreases lines
    ensures ReadAll(before + Unlines(lines), |before|) == Trimmed(lines)
  {
    if lines == [] {
      assert before + Unlines(lines) == before;
    } else {
      Regrouped(before, lines[0], Unlines(lines[1..]));
      ReadOneLine(before, lines[0], Unlines(lines[1..]));
      ReadAllTerminated(before + (lines[0] + "\n"), lines[1..]);
    }
  }

  lemma {:induction false} NoLineEnd(s: string, i: nat)
    requires i <= |s| && '\n' !in s
    ensures LineEnd(s, i) == |s|
    decreases |s| - i
  {
    if i < |s| {
      assert s[i] in s;
      NoLineEnd(s, i + 1);
    }
  }

  /**
   * Without a final newline a line comes back trimmed as the others are exactly when it is
   * blank, or has two characters or more and no space among the last two.
   */
  lemma UnterminatedLine(s: string)
    requires '\n' !in s && s != []
    ensures var left := Skip(s, 0);
            ReadAll(s, 0) == [Trim(s)]
            <==> left == |s| || (|s| - left >= 2 && s[|s| - 1] != ' ' && s[|s| - 2] != ' ')
  {
    NoLineEnd(s, 0);
    var left := Skip(s, 0);
    assert ReadAll(s, 0) == [LineText(s, 0)];
    if left < |s| {
      SkipStops(s, 0);
      LastCharacters(s, left);
    }
  }

  /** Whether the last, unterminated line of a buffer comes back trimmed as the others are. */
  ghost predicate ReadsWhole(last: string) {
    var left := Skip(last, 0);
    left == |last| || (|last| - left >= 2 && last[|last| - 1] != ' ' && last[|last| - 2] != ' ')
  }

  lemma {:induction false} EndShifts(before: string, last: string, i: nat)
    requires i <= |last| && '\n' !in last
    ensures Skip(before + last, |before| + i) == |before| + Skip(last, i)
    ensures LineEnd(before + last, |before| + i) == |before + last|
    decreases |last| - i
  {
    if i < |last| {
      assert (before + last)[|before| + i] == last[i] && last[i] in last;
      EndShifts(before, last, i + 1);
    }
  }

  lemma SameEnd(before: string, last: string, left: nat)
    requires left + 1 < |last|
    ensures var s := before + last;
            && s[|s| - 1] == last[|last| - 1] && s[|s| - 2] == last[|last| - 2]
            && s[|before| + left..] == last[left..]
            && s[|before| + left..Back(s, |before| + left, |s| - 1)] == last[left..Back(last, left, |last| - 1)]
  {
    var s := before + last;
    assert Stands(s, |before|, last);
    BackShifts(s, |before|, last, left, |last| - 1);
    SliceStands(s, |before|, last, left, Back(last, left, |last| - 1));
  }

  /** An unterminated line reads the same whatever stands before it. */
  lemma LastLine(before: string, last: string)
    requires '\n' !in last
    ensures LineText(before + last, |before|) == LineText(last, 0)
    ensures NextIndex(before + last, |before|) == |before + last|
  {
    var left := Skip(last, 0);
    EndShifts(before, last, 0);
    NoLineEnd(last, 0);
    if left + 1 < |last| {
      SameEnd(before, last, left);
    }
  }

  lemma RegroupedLast(before: string, line: string, rest: string, last: string)
    ensures before + (line + "\n" + rest) + last == before + (line + "\n") + (rest + last)
    ensures before + (line + "\n" + rest) + last == before + (line + "\n") + rest + last
  {}

  lemma {:induction false} ReadAllUnterminated(before: string, lines: seq<string>, last: string)
    requires NoNewlines(lines) && '\n' !in last && last != []
    decreases lines
    ensures ReadAll(before + Unlines(lines) + last, |before|) == Trimmed(lines) + [LineText(last, 0)]
  {
    if lines == [] {
      assert before + Unlines(lines) + last == before + last;
      LastLine(before, last);
    } else {
      RegroupedLast(before, lines[0], Unlines(lines[1..]), last);
      ReadOneLine(before, lines[0], Unlines(lines[1..]) + last);
      ReadAllUnterminated(before + (lines[0] + "\n"), lines[1..], last);
    }
  }

  /**
   * Whatever lines stand before it, a last line without a newline comes back trimmed as they are
   * exactly when it is blank, or has two characters or more after its leading spaces and no space
   * among the last two.
   */
  lemma UnterminatedBuffer(lines: seq<string>, last: string)
    requires NoNewlines(lines) && '\n' !in last && last != []
    ensures ReadAll(Unlines(lines) + last, 0) == Trimmed(lines) + [Trim(last)] <==> ReadsWhole(last)
  {
    ReadAllUnterminated("", lines, last);
    assert "" + Unlines(lines) + last == Unlines(lines) + last;
    UnterminatedLine(last);
    NoLineEnd(last, 0);
    assert ReadAll(last, 0) == [LineText(last, 0)];
    var a, b := Trimmed(lines) + [LineText(last, 0)], Trimmed(lines) + [Trim(last)];
    assert a[|a| - 1] == LineText(last, 0) && b[|b| - 1] == Trim(last);
    assert [LineText(last, 0)] == [Trim(last)] <==> LineText(last, 0) == Trim(last);
  }

  lemma LastCharacters(s: string, left: nat)
    requires left < |s| && s[left] != ' '
    ensures |TrimFrom(s, left)| > 0
    ensures s[|s| - 1] != ' ' ==> TrimFrom(s, left) == s[left..]
    ensures |s| - left >= 2 ==> |s[left..Back(s, left, |s| - 1)]| < |s[left..]|
  {
    BackKeepsFirst(s, left, |s|);
  }

  lemma {:induction false} SkipStops(s: string, i: nat)
    requires i <= |s|
    ensures Skip(s, i) < |s| ==> s[Skip(s, i)] != ' '
    decreases |s| - i
  {
    if i < |s| && s[i] == ' ' {
      SkipStops(s, i + 1);
    }
  }

  lemma {:induction false} BackKeepsFirst(s: string, left: nat, right: nat)
    requires left < right <= |s| && s[left] != ' '
    ensures left < Back(s, left, right)
  {
    if s[right - 1] == ' ' {
      BackKeepsFirst(s, left, right - 1);
    }
  }

  // ---------- chain lines ----------

  function IndexOf(s: string, c: char): (i: int)
    ensures -1 <= i < |s|
  {
    if s == [] then -1
    else if s[0] == c then 0
    else
      var i := IndexOf(s[1..], c);
      if i < 0 then -1 else i + 1
  }

  lemma {:induction false} IndexOfIs(s: string, c: char, k: nat)
    requires k < |s| && s[k] == c && c !in s[..k]
    ensures IndexOf(s, c) == k
  {
    if k > 0 {
      assert s[0] in s[..k];
      assert s[1..][..k - 1] == s[..k][1..];
      IndexOfIs(s[1..], c, k - 1);
    }
  }

  /** The lines after the first one that starts the table; the test is a prefix test. */
  function AfterHeader(lines: seq<string>, prefix: string): seq<string> {
    if lines == [] then []
    else if prefix <= lines[0] then lines[1..]
    else AfterHeader(lines[1..], prefix)
  }

  /** The chain lines up to COMMIT or the next table; None when a chain line holds no space (a panic). */
  function TableChains(lines: seq<string>, chains: map<string, string>): Option<map<string, string>> {
    if lines == [] then Some(chains)
    else
      var line := lines[0];
      if "COMMIT" <= line || "*" <= line then Some(chains)
      else if ":" <= line && |line| > 1 then
        var space := IndexOf(line, ' ');
        if space < 1 then None else TableChains(lines[1..], chains[line[1..space] := line])
      else TableChains(lines[1..], chains)
  }

  function ChainLines(table: string, save: string): Option<map<string, string>> {
    TableChains(AfterHeader(ReadAll(save, 0), "*" + table), map[])
  }

  method GetChainLines(table: string, save: string) returns (r: Option<map<string, string>>)
    ensures r == ChainLines(table, save)
  {
    var chains: map<string, string> := map[];
    var tablePrefix := "*" + table;
    var readIndex := 0;
    ghost var parsed := AfterHeader(ReadAll(save, 0), tablePrefix);
    while readIndex < |save|
      invariant readIndex <= |save|
      invariant parsed == AfterHeader(ReadAll(save, readIndex), tablePrefix)
      decreases |save| - readIndex
    {
      var line, n := ReadLine(readIndex, save);
      assert ReadAll(save, readIndex)[1..] == ReadAll(save, n);
      readIndex := n;
      if tablePrefix <= line {
        assert parsed == ReadAll(save, readIndex);
        break;
      }
    }
    assert parsed == ReadAll(save, readIndex);
    while readIndex < |save|
      invariant readIndex <= |save|
      invariant TableChains(parsed, map[]) == TableChains(ReadAll(save, readIndex), chains)
      decreases |save| - readIndex
    {
      var line, n := ReadLine(readIndex, save);
      assert ReadAll(save, readIndex)[0] == line && ReadAll(save, readIndex)[1..] == ReadAll(save, n);
      readIndex := n;
      if |line| == 0 {
        continue;
      }
      if "COMMIT" <= line || "*" <= line {
        return Some(chains);
      } else if "#" <= line {
        continue;
      } else if ":" <= line && |line| > 1 {
        var space := IndexOf(line, ' ');
        if space < 1 {
          return None;
        }
        chains := chains[line[1..space] := line];
      }
    }
    return Some(chains);
  }

  // ---------- writing ----------

  function Words(words: seq<string>): string {
    if words == [] then "" else if |words| == 1 then words[0] else words[0] + " " + Words(words[1..])
  }

  /** Splitting a line at its spaces gives the words back. */
  lemma {:induction false} WordsSplit(words: seq<string>)
    requires words != [] && forall i :: 0 <= i < |words| ==> ' ' !in words[i]
    ensures Flannel.Split(Words(words), ' ') == words
  {
    if |words| == 1 {
      Flannel.SplitNone(words[0], ' ');
    } else {
      WordsSplit(words[1..]);
      Flannel.SplitFirst(words[0], ' ', Words(words[1..]));
      assert words[0] + [' '] + Words(words[1..]) == Words(words);
      assert [words[0]] + words[1..] == words;
    }
  }

  /** Joins the words with spaces and ends the line; with no word nothing is written. */
  method WriteLine(buf: string, words: seq<string>) returns (written: string)
    ensures written == buf + if words == [] then "" else Words(words) + "\n"
  {
    written := buf;
    var i := 0;
    while i < |words|
      invariant 0 <= i <= |words|
      invariant i < |words| ==> written + Words(words[i..]) == buf + Words(words)
      invariant i == |words| ==> written == buf + if words == [] then "" else Words(words) + "\n"
    {
      ghost var before := written;
      written := written + words[i];
      assert words[i..][1..] == words[i + 1..];
      if i < |words| - 1 {
        written := written + " ";
        assert before + (words[i] + " " + Words(words[i + 1..])) == written + Words(words[i + 1..]);
      } else {
        written := written + "\n";
        assert before + words[i] + "\n" == buf + Words(words) + "\n";
      }
      i := i + 1;
    }
  }

  function MakeChainLine(chain: string): string { ":" + chain + " - [0:0]" }

  // ---------- the round trip ----------

  /** A chain line: the name up to the first space, then policy and counters. */
  ghost predicate IsChainLine(name: string, line: string) {
    && ' ' !in name
    && ":" + name + " " <= line
    && line[|line| - 1] != ' '
    && '\n' !in line
  }

  ghost predicate IsRuleLine(line: string) {
    "-" <= line && '\n' !in line
  }

  /** The map a list of chain lines denotes: a later line for the same name wins. */
  ghost function Denoted(names: seq<string>, lines: seq<string>, chains: map<string, string>): map<string, string>
    requires |names| == |lines|
  {
    if names == [] then chains else Denoted(names[1..], lines[1..], chains[names[0] := lines[0]])
  }

  lemma MadeChainLine(name: string)
    requires ' ' !in name && '\n' !in name
    ensures IsChainLine(name, MakeChainLine(name))
  {
    assert MakeChainLine(name) == (":" + name + " ") + "- [0:0]";
    assert '\n' !in (":" + name + " ");
    assert '\n' !in "- [0:0]";
  }

  lemma TrimmedAlready(line: string)
    requires line != [] && line[0] != ' ' && line[|line| - 1] != ' '
    ensures Trim(line) == line
  {}

  lemma TrimmedChainLine(name: string, line: string)
    requires IsChainLine(name, line)
    ensures Trim(line) == line && ":" <= line && |line| > 1
    ensures IndexOf(line, ' ') == |name| + 1 && line[1..|name| + 1] == name
    ensures !("COMMIT" <= line) && !("*" <= line)
  {
    var head := ":" + name + " ";
    assert head[0] == ':' && head[|name| + 1] == ' ';
    assert line[..|head|] == head;
    assert line[0] == ':' && line[|name| + 1] == ' ';
    assert line[..|name| + 1] == head[..|name| + 1] == ":" + name;
    assert line[1..|name| + 1] == head[1..|name| + 1] == name;
    IndexOfIs(line, ' ', |name| + 1);
    TrimmedAlready(line);
  }

  lemma TrimmedRuleLine(line: string)
    requires IsRuleLine(line)
    ensures "-" <= Trim(line)
  {
    assert line[0] == '-';
    assert Skip(line, 0) == 0;
    BackKeepsFirst(line, 0, |line|);
  }

  lemma {:induction false} RulesRead(lines: seq<string>, tail: seq<string>, chains: map<string, string>)
    requires forall i :: 0 <= i < |lines| ==> "-" <= lines[i]
    requires tail != [] && tail[0] == "COMMIT"
    ensures TableChains(lines + tail, chains) == Some(chains)
  {
    if lines != [] {
      assert lines[0][0] == '-';
      RulesRead(lines[1..], tail, chains);
      assert (lines + tail)[1..] == lines[1..] + tail;
    }
  }

  lemma {:induction false} ChainsRead(names: seq<string>, lines: seq<string>, tail: seq<string>,
                                      chains: map<string, string>)
    requires |names| == |lines| && forall i :: 0 <= i < |names| ==> IsChainLine(names[i], lines[i])
    ensures TableChains(lines + tail, chains) == TableChains(tail, Denoted(names, lines, chains))
  {
    if names == [] {
      assert lines + tail == tail;
    } else {
      TrimmedChainLine(names[0], lines[0]);
      assert (lines + tail)[1..] == lines[1..] + tail;
      ChainsRead(names[1..], lines[1..], tail, chains[names[0] := lines[0]]);
    }
  }

  lemma {:induction false} HeaderRead(before: seq<string>, after: seq<string>, prefix: string)
    requires forall i :: 0 <= i < |before| ==> !(prefix <= before[i])
    requires after != [] && prefix <= after[0]
    ensures AfterHeader(before + after, prefix) == after[1..]
  {
    if before == [] {
      assert before + after == after;
    } else {
      assert (before + after)[1..] == before[1..] + after;
      HeaderRead(before[1..], after, prefix);
    }
  }

  lemma {:induction false} TrimmedConcat(a: seq<string>, b: seq<string>)
    ensures Trimmed(a + b) == Trimmed(a) + Trimmed(b)
  {
    if a == [] {
      assert a + b == b;
    } else {
      assert (a + b)[1..] == a[1..] + b;
      TrimmedConcat(a[1..], b);
    }
  }

  lemma {:induction false} TrimmedChainLines(names: seq<string>, lines: seq<string>)
    requires |names| == |lines| && forall i :: 0 <= i < |names| ==> IsChainLine(names[i], lines[i])
    ensures Trimmed(lines) == lines
  {
    if lines != [] {
      TrimmedChainLine(names[0], lines[0]);
      TrimmedChainLines(names[1..], lines[1..]);
    }
  }

  lemma {:induction false} TrimmedLength(lines: seq<string>)
    ensures |Trimmed(lines)| == |lines|
  {
    if lines != [] {
      TrimmedLength(lines[1..]);
    }
  }

  lemma {:induction false} TrimmedAt(lines: seq<string>, i: nat)
    requires i < |lines|
    ensures |Trimmed(lines)| == |lines| && Trimmed(lines)[i] == Trim(lines[i])
  {
    TrimmedLength(lines);
    if i > 0 {
      TrimmedAt(lines[1..], i - 1);
    }
  }

  /**
   * Reading back a printed table returns exactly its chain lines under their names, whatever
   * precedes the table (comments, other tables) and whatever follows its COMMIT.
   */
  lemma RoundTrip(table: string, before: seq<string>, names: seq<string>, chainLines: seq<string>, rules: seq<string>,
                  after: seq<string>)
    requires '\n' !in table && ' ' !in table && table != []
    requires NoNewlines(before) && NoNewlines(after)
    requires forall i :: 0 <= i < |before| ==> !("*" + table <= Trim(before[i]))
    requires |names| == |chainLines| && forall i :: 0 <= i < |names| ==> IsChainLine(names[i], chainLines[i])
    requires forall i :: 0 <= i < |rules| ==> IsRuleLine(rules[i])
    ensures ChainLines(table, Unlines(before + (["*" + table] + (chainLines + (rules + (["COMMIT"] + after))))))
         == Some(Denoted(names, chainLines, map[]))
  {
    var tail := ["COMMIT"] + after;
    var header := "*" + table;
    TrimmedAlready("COMMIT");
    assert Trim(header) == header by {
      assert header[|header| - 1] == table[|table| - 1] && table[|table| - 1] in table;
      TrimmedAlready(header);
    }
    assert '\n' !in "COMMIT" && '\n' !in header;
    assert Trimmed(tail)[0] == "COMMIT";
    RoundTripLines(before, header, names, chainLines, rules, tail);
    assert Unlines(before + ([header] + (chainLines + (rules + tail))))
        == Unlines(before + (["*" + table] + (chainLines + (rules + (["COMMIT"] + after)))));
  }

  lemma RoundTripLines(before: seq<string>, header: string, names: seq<string>, chainLines: seq<string>,
                       rules: seq<string>, tail: seq<string>)
    requires NoNewlines(before) && NoNewlines(tail) && '\n' !in header && Trim(header) == header
    requires forall i :: 0 <= i < |before| ==> !(header <= Trim(before[i]))
    requires |names| == |chainLines| && forall i :: 0 <= i < |names| ==> IsChainLine(names[i], chainLines[i])
    requires forall i :: 0 <= i < |rules| ==> IsRuleLine(rules[i])
    requires tail != [] && Trimmed(tail)[0] == "COMMIT"
    ensures TableChains(AfterHeader(ReadAll(Unlines(before + ([header] + (chainLines + (rules + tail)))), 0), header),
                map[])
         == Some(Denoted(names, chainLines, map[]))
  {
    var all := before + ([header] + (chainLines + (rules + tail)));
    assert NoNewlines(chainLines) by {
      assert forall i :: 0 <= i < |names| ==> IsChainLine(names[i], chainLines[i]);
    }
    assert NoNewlines(rules) by {
      assert forall i :: 0 <= i < |rules| ==> IsRuleLine(rules[i]);
    }
    PartsNoNewlines(before, header, chainLines, rules, tail);
    ReadAllTerminated("", all);
    assert "" + Unlines(all) == Unlines(all);
    TrimmedParts(before, header, chainLines, rules, tail);
    TrimmedChainLines(names, chainLines);
    TrimmedHeaders(before, header);
    TrimmedRules(rules);
    TableRead(header, Trimmed(before), names, chainLines, Trimmed(rules), Trimmed(tail));
  }

  lemma PartsNoNewlines(before: seq<string>, header: string, chainLines: seq<string>, rules: seq<string>,
                        tail: seq<string>)
    requires NoNewlines(before) && NoNewlines(chainLines) && NoNewlines(rules) && NoNewlines(tail) && '\n' !in header
    ensures NoNewlines(before + ([header] + (chainLines + (rules + tail))))
  {
    assert NoNewlines(rules + tail);
    assert NoNewlines(chainLines + (rules + tail));
    assert NoNewlines([header] + (chainLines + (rules + tail)));
  }

  lemma TrimmedHeaders(before: seq<string>, header: string)
    requires forall i :: 0 <= i < |before| ==> !(header <= Trim(before[i]))
    ensures forall i :: 0 <= i < |Trimmed(before)| ==> !(header <= Trimmed(before)[i])
  {
    TrimmedLength(before);
    forall i | 0 <= i < |before| ensures !(header <= Trimmed(before)[i]) {
      TrimmedAt(before, i);
    }
  }

  lemma TrimmedRules(rules: seq<string>)
    requires forall i :: 0 <= i < |rules| ==> IsRuleLine(rules[i])
    ensures forall i :: 0 <= i < |Trimmed(rules)| ==> "-" <= Trimmed(rules)[i]
  {
    TrimmedLength(rules);
    forall i | 0 <= i < |rules| ensures "-" <= Trimmed(rules)[i] {
      TrimmedAt(rules, i);
      TrimmedRuleLine(rules[i]);
    }
  }

  lemma TrimmedParts(before: seq<string>, header: string, chainLines: seq<string>, rules: seq<string>,
                     tail: seq<string>)
    ensures Trimmed(before + ([header] + (chainLines + (rules + tail))))
         == Trimmed(before) + ([Trim(header)] + (Trimmed(chainLines) + (Trimmed(rules) + Trimmed(tail))))
  {
    TrimmedConcat(before, [header] + (chainLines + (rules + tail)));
    TrimmedConcat([header], chainLines + (rules + tail));
    TrimmedConcat(chainLines, rules + tail);
    TrimmedConcat(rules, tail);
    assert Trimmed([header]) == [Trim(header)];
  }

  lemma TableRead(header: string, before: seq<string>, names: seq<string>, chainLines: seq<string>,
                  rules: seq<string>, tail: seq<string>)
    requires forall i :: 0 <= i < |before| ==> !(header <= before[i])
    requires |names| == |chainLines| && forall i :: 0 <= i < |names| ==> IsChainLine(names[i], chainLines[i])
    requires forall i :: 0 <= i < |rules| ==> "-" <= rules[i]
    requires tail != [] && tail[0] == "COMMIT"
    ensures TableChains(AfterHeader(before + ([header] + (chainLines + (rules + tail))), header), map[])
         == Some(Denoted(names, chainLines, map[]))
  {
    var body := chainLines + (rules + tail);
    HeaderRead(before, [header] + body, header);
    assert ([header] + body)[1..] == body;
    ChainsRead(names, chainLines, rules + tail, map[]);
    RulesRead(rules, tail, Denoted(names, chainLines, map[]));
  }

  /** With distinct names the denoted map has exactly those names, each with its own line. */
  lemma {:induction false} DenotedDistinct(names: seq<string>, lines: seq<string>, chains: map<string, string>)
    requires |names| == |lines|
    requires forall i, j :: 0 <= i < j < |names| ==> names[i] != names[j]
    ensures forall i ::
              0 <= i < |names|
              ==> names[i] in Denoted(names, lines, chains) && Denoted(names, lines, chains)[names[i]] == lines[i]
    ensures forall c :: c in Denoted(names, lines, chains) <==> c in chains || c in names
    ensures forall c :: c in chains && c !in names ==> Denoted(names, lines, chains)[c] == chains[c]
  {
    if names != [] {
      var rest := names[1..];
      assert names == [names[0]] + rest;
      DenotedDistinct(rest, lines[1..], chains[names[0] := lines[0]]);
      assert names[0] !in rest;
      forall i | 0 <= i < |names|
        ensures names[i] in Denoted(names, lines, chains) && Denoted(names, lines, chains)[names[i]] == lines[i]
      {
        if i > 0 {
          assert rest[i - 1] == names[i] && lines[1..][i - 1] == lines[i];
        }
      }
    }
  }
  /**
   * With distinct names, as in every table the kernel prints, what is read back has exactly the
   * printed names, each with its own line.
   */
  lemma RoundTripDistinct(table: string, before: seq<string>, names: seq<string>, chainLines: seq<string>,
                          rules: seq<string>, after: seq<string>)
    requires '\n' !in table && ' ' !in table && table != []
    requires NoNewlines(before) && NoNewlines(after)
    requires forall i :: 0 <= i < |before| ==> !("*" + table <= Trim(before[i]))
    requires |names| == |chainLines| && forall i :: 0 <= i < |names| ==> IsChainLine(names[i], chainLines[i])
    requires forall i, j :: 0 <= i < j < |names| ==> names[i] != names[j]
    requires forall i :: 0 <= i < |rules| ==> IsRuleLine(rules[i])
    ensures var read := ChainLines(table,
                Unlines(before + (["*" + table] + (chainLines + (rules + (["COMMIT"] + after))))));
            && read.Some? && (forall c :: c in read.value <==> c in names)
            && forall i :: 0 <= i < |names| ==> read.value[names[i]] == chainLines[i]
  {
    RoundTrip(table, before, names, chainLines, rules, after);
    ReadDistinct(ChainLines(table, Unlines(before + (["*" + table] + (chainLines + (rules + (["COMMIT"] + after)))))),
        names, chainLines);
  }

  lemma ReadDistinct(read: Option<map<string, string>>, names: seq<string>, lines: seq<string>)
    requires |names| == |lines| && read == Some(Denoted(names, lines, map[]))
    requires forall i, j :: 0 <= i < j < |names| ==> names[i] != names[j]
    ensures forall c :: c in read.value <==> c in names
    ensures forall i :: 0 <= i < |names| ==> read.value[names[i]] == lines[i]
  {
    DenotedDistinct(names, lines, map[]);
  }
}
