/** checksums.txt as lines of text: reading it, adding a line, and writing it back. */
module ChecksumLines {
  import opened Common
  import opened Sorting
  import opened Text

  function NonBlank(lines: seq<string>): (r: seq<string>)
    ensures forall l :: l in r <==> l in lines && l != ""
  {
    if lines == [] then []
    else
      var n := |lines| - 1;
      assert lines == lines[..n] + [lines[n]];
      NonBlank(lines[..n]) + if lines[n] != "" then [lines[n]] else []
  }

  /** The lines of a checksum text. */
  function Lines(text: string): seq<string> { NonBlank(Split(text, '\n')) }

  /** Lines as the tool writes them: sorted and newline-terminated. */
  function Written(lines: seq<string>): string {
    Join(Sort(lines, StrLe), '\n') + "\n"
  }

  /** The rewritten text: one line more. */
  function Rewrite(text: string, line: string): string { Written(Lines(text) + [line]) }

  /** What one checksum line says: the file of this name has this digest. */
  datatype Listed = Listed(digest: string, name: string)

  /** A loader takes the digest up to the first space and the name after it. */
  function ReadLine(line: string): (r: Option<Listed>)
    ensures r.None? <==> ' ' !in line
    ensures r.Some? ==> line == r.value.digest + " " + r.value.name && ' ' !in r.value.digest
  {
    if line == "" then None
    else if line[0] == ' ' then Some(Listed("", line[1..]))
    else
      match ReadLine(line[1..])
      case None => None
      case Some(l) => Some(Listed([line[0]] + l.digest, l.name))
  }

  /** What the lines say, in whatever order they come. */
  function ReadAll(lines: seq<string>): multiset<Option<Listed>> {
    if lines == [] then multiset{} else ReadAll(lines[..|lines| - 1]) + multiset{ReadLine(lines[|lines| - 1])}
  }

  /** A digest without a space and any name are read back from their line. */
  lemma {:induction false} ReadMade(digest: string, name: string)
    requires ' ' !in digest
    ensures ReadLine(digest + " " + name) == Some(Listed(digest, name))
  {
    if digest == "" {
      assert digest + " " + name == [' '] + name;
      ReadFirst(' ', name);
    } else {
      ReadMade(digest[1..], name);
      assert digest == [digest[0]] + digest[1..];
      assert digest + " " + name == [digest[0]] + (digest[1..] + " " + name);
      ReadFirst(digest[0], digest[1..] + " " + name);
    }
  }

  lemma ReadFirst(ch: char, rest: string)
    ensures ReadLine([ch] + rest)
            == if ch == ' ' then Some(Listed("", rest))
               else match ReadLine(rest)
                    case None => None
                    case Some(l) => Some(Listed([ch] + l.digest, l.name))
  {
    assert ([ch] + rest)[0] == ch && ([ch] + rest)[1..] == rest;
  }

  lemma ReadSnoc(lines: seq<string>, line: string)
    ensures ReadAll(lines + [line]) == ReadAll(lines) + multiset{ReadLine(line)}
  {
    assert (lines + [line])[..|lines|] == lines;
  }

  lemma {:induction false} ReadAppend(a: seq<string>, b: seq<string>)
    ensures ReadAll(a + b) == ReadAll(a) + ReadAll(b)
  {
    if b == [] {
      assert a + b == a;
    } else {
      var n := |b| - 1;
      InitAndLast(b);
      assert a + b == (a + b[..n]) + [b[n]];
      ReadAppend(a, b[..n]);
      ReadSnoc(a + b[..n], b[n]);
    }
  }

  /** The order of the lines does not matter. */
  lemma {:induction false} ReadAnyOrder(a: seq<string>, b: seq<string>)
    requires multiset(a) == multiset(b)
    ensures ReadAll(a) == ReadAll(b)
    decreases |a|
  {
    SameSize(a, b);
    if a != [] {
      var last := a[|a| - 1];
      var k := IndexOfLast(a, b);
      InitAndLast(a);
      var init, left, right := a[..|a| - 1], b[..k], b[k + 1..];
      assert b == left + [last] + right;
      SameWithout(init, left, right, last);
      ReadAnyOrder(init, left + right);
      ReadAppend(left, right);
      ReadAppend(left + [last], right);
      ReadSnoc(left, last);
    }
  }

  lemma SameWithout(init: seq<string>, left: seq<string>, right: seq<string>, last: string)
    requires multiset(init + [last]) == multiset(left + [last] + right)
    ensures multiset(init) == multiset(left + right)
  {
    assert multiset(init + [last]) == multiset(init) + multiset{last};
    assert multiset(left + [last] + right) == multiset(left + right) + multiset{last};
    forall l ensures multiset(init)[l] == multiset(left + right)[l] {
      assert (multiset(init) + multiset{last})[l] == (multiset(left + right) + multiset{last})[l];
    }
  }

  lemma SameSize(a: seq<string>, b: seq<string>)
    requires multiset(a) == multiset(b)
    ensures |a| == |b|
  {
    assert |multiset(a)| == |a| && |multiset(b)| == |b|;
  }

  lemma IndexOfLast(a: seq<string>, b: seq<string>) returns (k: nat)
    requires a != [] && multiset(a) == multiset(b)
    ensures k < |b| && b[k] == a[|a| - 1]
  {
    assert a[|a| - 1] in multiset(b);
    k :| k < |b| && b[k] == a[|a| - 1];
  }

  ghost predicate WholeLines(lines: seq<string>) {
    forall i | 0 <= i < |lines| :: lines[i] != "" && '\n' !in lines[i]
  }

  lemma {:induction false} NonBlankDropsBlankEnd(lines: seq<string>)
    requires WholeLines(lines)
    ensures NonBlank(lines) == lines && NonBlank(lines + [""]) == lines
  {
    assert (lines + [""])[..|lines|] == lines;
    if lines != [] {
      var n := |lines| - 1;
      NonBlankDropsBlankEnd(lines[..n]);
      assert lines == lines[..n] + [lines[n]];
    }
  }

  /** Lines that are joined and newline-terminated are read back unchanged. */
  lemma ParseJoined(lines: seq<string>)
    requires lines != [] && WholeLines(lines)
    ensures Split(Join(lines, '\n') + "\n", '\n') == lines + [""]
    ensures Lines(Join(lines, '\n') + "\n") == lines
  {
    var text := Join(lines, '\n');
    SplitJoin(lines, '\n');
    SplitEnded(text, lines);
    NonBlankDropsBlankEnd(lines);
  }

  lemma SplitEnded(text: string, lines: seq<string>)
    requires Split(text, '\n') == lines
    ensures Split(text + "\n", '\n') == lines + [""]
  {
    SplitLast(text, "", '\n');
    assert text + ['\n'] + "" == text + "\n";
  }

  lemma LinesAreWhole(text: string)
    ensures WholeLines(Lines(text))
  {
    var pieces := Split(text, '\n');
    var lines := NonBlank(pieces);
    forall i | 0 <= i < |lines| ensures lines[i] != "" && '\n' !in lines[i] {
      assert lines[i] in lines;
      assert lines[i] in pieces;
    }
  }

  lemma SortedLinesAreWhole(lines: seq<string>)
    requires WholeLines(lines)
    ensures WholeLines(Sort(lines, StrLe))
  {
    var sorted := Sort(lines, StrLe);
    SameElements(sorted, lines);
    forall i | 0 <= i < |sorted| ensures sorted[i] != "" && '\n' !in sorted[i] {
      assert sorted[i] in sorted;
      assert sorted[i] in lines;
    }
  }

  lemma WrittenParsesBack(lines: seq<string>)
    requires lines != [] && WholeLines(lines)
    ensures Split(Written(lines), '\n') == Sort(lines, StrLe) + [""]
    ensures Lines(Written(lines)) == Sort(lines, StrLe) && Sorted(Sort(lines, StrLe), StrLe)
  {
    SortedLinesAreWhole(lines);
    SameElements(Sort(lines, StrLe), lines);
    ParseJoined(Sort(lines, StrLe));
    StrLeOrder(lines);
    SortSorted(lines, StrLe);
  }

  /** The rewritten text is the sorted old lines plus the new one, each ended by one newline, and says
      what the old text said and what the new line says. */
  lemma RewriteParsesBack(text: string, line: string)
    requires line != "" && '\n' !in line
    ensures Split(Rewrite(text, line), '\n') == Sort(Lines(text) + [line], StrLe) + [""]
    ensures Lines(Rewrite(text, line)) == Sort(Lines(text) + [line], StrLe)
    ensures multiset(Lines(Rewrite(text, line))) == multiset(Lines(text)) + multiset{line}
    ensures Sorted(Lines(Rewrite(text, line)), StrLe)
    ensures ReadAll(Lines(Rewrite(text, line))) == ReadAll(Lines(text)) + multiset{ReadLine(line)}
  {
    LinesAreWhole(text);
    WrittenParsesBack(Lines(text) + [line]);
    ReadAnyOrder(Lines(Rewrite(text, line)), Lines(text) + [line]);
    ReadSnoc(Lines(text), line);
  }

  /** The rewrite is canonical: it depends only on which lines occur and how often. */
  lemma RewriteCanonical(a: string, b: string, line: string)
    requires multiset(Lines(a)) == multiset(Lines(b))
    ensures Rewrite(a, line) == Rewrite(b, line)
  {
    SortStringsCanonical(Lines(a) + [line], Lines(b) + [line]);
  }

  /** The loop that drops blank lines, then the append, the sort and the join. */
  method RewriteText(checksums: string, line: string) returns (text: string)
    ensures text == Rewrite(checksums, line)
  {
    var split := Split(checksums, '\n');
    var lines: seq<string> := [];
    for i := 0 to |split|
      invariant lines == NonBlank(split[..i])
    {
      assert split[..i + 1][..i] == split[..i];
      if split[i] != "" {
        lines := lines + [split[i]];
      }
    }
    assert split[..|split|] == split;
    lines := lines + [line];
    lines := Sort(lines, StrLe);
    text := Join(lines, '\n') + "\n";
  }
}
