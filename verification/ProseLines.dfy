/** What each line of model prose is, by its characters. */
module ProseLines {
  import opened Options
  import opened Sequences
  import opened Strings
  import opened RichText
  import opened Prose

  // ---------------------------------------------------------------------------
  // How a line of each kind is spelled

  predicate AllSpace(s: string) { forall i | 0 <= i < |s| :: IsSpace(s[i]) }

  /** Nothing, or text that begins with no white space. */
  predicate Flush(s: string) { s == "" || !IsSpace(s[0]) }

  /** An indent, three backticks, and no further one. */
  predicate FenceSpelling(line: string, indent: string, info: string) {
    line == indent + ("```" + info) && AllSpace(indent) && forall i | 0 <= i < |info| :: info[i] != '`'
  }

  /** White space, at least one, and then text to the end of the line. */
  predicate TextSpelling(s: string, gap: string, text: string) {
    s == gap + text && gap != "" && AllSpace(gap) && Flush(text) && forall i | 0 <= i < |text| :: !IsTerminator(text[i])
  }

  /** An indent, `-` or `*`, a gap and the item. */
  predicate BulletSpelling(line: string, indent: string, mark: char, gap: string, item: string) {
    line == indent + ([mark] + (gap + item)) && AllSpace(indent) && (mark == '-' || mark == '*') && TextSpelling(gap + item, gap, item)
  }

  /** An indent, one to six hashes, a gap, and the title with white space after it. */
  predicate HeadingSpelling(line: string, indent: string, hashes: string, gap: string, title: string, tail: string) {
    && line == indent + (hashes + (gap + (title + tail))) && AllSpace(indent)
    && 1 <= |hashes| <= 6 && (forall i | 0 <= i < |hashes| :: hashes[i] == '#')
    && TextSpelling(gap + (title + tail), gap, title + tail)
    && AllSpace(tail) && Flush(title) && (title != "" ==> !IsSpace(title[|title| - 1]))
  }

  // ---------------------------------------------------------------------------
  // The patterns find exactly these

  /** White space before text comes off, and nothing else does. */
  lemma {:induction false} IndentComesOff(indent: string, t: string)
    requires AllSpace(indent) && Flush(t)
    ensures TrimStart(indent + t) == t
  {
    if indent == "" {
      assert indent + t == t;
    } else {
      assert (indent + t)[1..] == indent[1..] + t;
      IndentComesOff(indent[1..], t);
    }
  }

  lemma Indented(s: string) returns (indent: string)
    ensures s == indent + TrimStart(s) && AllSpace(indent) && Flush(TrimStart(s))
  {
    indent := s[..|s| - |TrimStart(s)|];
    StartIsSpace(s);
  }

  lemma FenceReads(line: string, indent: string, info: string)
    requires FenceSpelling(line, indent, info)
    ensures FenceInfo(line) == Some(info)
  {
    assert ("```" + info)[0] == '`';
    IndentComesOff(indent, "```" + info);
    StripPrefix("```", info);
  }

  lemma FenceIsSpelled(line: string) returns (indent: string)
    requires FenceInfo(line).Some?
    ensures FenceSpelling(line, indent, FenceInfo(line).value)
  {
    indent := Indented(line);
    var info := FenceInfo(line).value;
    assert forall i | 0 <= i < |info| :: info[i] in info && NotBacktick(info[i]);
  }

  lemma AfterSpaceIff(s: string, gap: string, text: string)
    ensures TextSpelling(s, gap, text) ==> AfterSpace(s) == Some(text)
  {
    if TextSpelling(s, gap, text) {
      IndentComesOff(gap, text);
      assert s[0] == gap[0];
    }
  }

  lemma AfterSpaceIsSpelled(s: string) returns (gap: string)
    requires AfterSpace(s).Some?
    ensures TextSpelling(s, gap, AfterSpace(s).value)
  {
    gap := Indented(s);
    var text := AfterSpace(s).value;
    assert gap + text == s;
    assert gap == "" ==> s == text;
    assert forall i | 0 <= i < |text| :: text[i] in text;
  }

  lemma BulletReads(line: string, indent: string, mark: char, gap: string, item: string)
    requires BulletSpelling(line, indent, mark, gap, item)
    ensures BulletText(line) == Some(item) && FenceInfo(line) == None
  {
    var t := [mark] + (gap + item);
    IndentComesOff(indent, t);
    assert t[0] == mark && t[1..] == gap + item;
    AfterSpaceIff(gap + item, gap, item);
    StripOther(t, "```", 0);
  }

  lemma BulletIsSpelled(line: string) returns (indent: string, mark: char, gap: string)
    requires BulletText(line).Some?
    ensures BulletSpelling(line, indent, mark, gap, BulletText(line).value)
  {
    indent := Indented(line);
    var t := TrimStart(line);
    mark := t[0];
    gap := AfterSpaceIsSpelled(t[1..]);
    HeadAndTail(t);
  }

  lemma HashRun(hashes: string, after: string)
    requires (forall i | 0 <= i < |hashes| :: hashes[i] == '#') && after != "" && after[0] != '#'
    ensures RunLength(hashes + after, IsHash) == |hashes|
    ensures (hashes + after)[|hashes|..] == after
  {
    RunLengthOf(hashes, after, IsHash);
  }

  /** The title of a heading is its text without the white space at the end. */
  lemma {:induction false} TailComesOff(title: string, tail: string)
    requires AllSpace(tail) && Flush(title) && Flush(title + tail) && (title != "" ==> !IsSpace(title[|title| - 1]))
    ensures Trim(title + tail) == title
  {
    if tail == "" {
      assert title + tail == title;
    } else {
      var t := title + tail;
      assert title == "" ==> t == tail;
      assert t[..|t| - 1] == title + tail[..|tail| - 1];
      assert t[|t| - 1] == tail[|tail| - 1];
      TailComesOff(title, tail[..|tail| - 1]);
    }
  }

  lemma HeadingReads(line: string, indent: string, hashes: string, gap: string, title: string, tail: string)
    requires HeadingSpelling(line, indent, hashes, gap, title, tail)
    ensures HeadingText(line) == Some(title + tail) && Trim(title + tail) == title
    ensures FenceInfo(line) == None && BulletText(line) == None
  {
    var after := gap + (title + tail);
    var t := hashes + after;
    assert t[0] == '#' && after[0] == gap[0];
    IndentComesOff(indent, t);
    HashRun(hashes, after);
    AfterSpaceIff(after, gap, title + tail);
    StripOther(t, "```", 0);
    TailComesOff(title, tail);
  }

  lemma HeadingHashes(t: string) returns (hashes: string, after: string)
    requires TitleText(t).Some?
    ensures t == hashes + after && AfterSpace(after) == TitleText(t)
    ensures 1 <= |hashes| <= 6 && forall i | 0 <= i < |hashes| :: hashes[i] == '#'
  {
    var k := RunLength(t, IsHash);
    hashes, after := t[..k], t[k..];
  }

  lemma HeadingIsSpelled(line: string) returns (indent: string, hashes: string, gap: string, tail: string)
    requires HeadingText(line).Some?
    ensures HeadingSpelling(line, indent, hashes, gap, Trim(HeadingText(line).value), tail)
  {
    indent := Indented(line);
    var after;
    hashes, after := HeadingHashes(TrimStart(line));
    gap := AfterSpaceIsSpelled(after);
    var text := HeadingText(line).value;
    tail := TitleAndTail(text);
    HeadingOfParts(line, indent, hashes, gap, text, Trim(text), tail);
  }

  lemma HeadingOfParts(line: string, indent: string, hashes: string, gap: string, text: string, title: string, tail: string)
    requires line == indent + (hashes + (gap + text)) && AllSpace(indent) && TextSpelling(gap + text, gap, text)
    requires 1 <= |hashes| <= 6 && forall i | 0 <= i < |hashes| :: hashes[i] == '#'
    requires text == title + tail && AllSpace(tail) && Flush(title) && (title != "" ==> !IsSpace(title[|title| - 1]))
    ensures HeadingSpelling(line, indent, hashes, gap, title, tail)
  {
  }

  lemma TitleAndTail(text: string) returns (tail: string)
    requires Flush(text)
    ensures text == Trim(text) + tail && AllSpace(tail)
    ensures Flush(Trim(text)) && (Trim(text) != "" ==> !IsSpace(Trim(text)[|Trim(text)| - 1]))
  {
    FlushIsTrimmedAtEnd(text);
    EndIsSpace(text);
    tail := text[|Trim(text)|..];
  }

  lemma FlushIsTrimmedAtEnd(text: string)
    requires Flush(text)
    ensures TrimStart(text) == text && Trim(text) == TrimEnd(text) && Flush(Trim(text))
  {
  }

  lemma BlankIff(line: string)
    ensures Trim(line) == "" <==> AllSpace(line)
    ensures AllSpace(line) ==> FenceInfo(line) == None && BulletText(line) == None && HeadingText(line) == None
  {
    var indent := Indented(line);
    if AllSpace(line) {
      IndentComesOff(line, "");
      assert line + "" == line;
      StripOther("", "```", 0);
    } else {
      EndIsSpace(TrimStart(line));
    }
  }

  // ---------------------------------------------------------------------------
  // What a line is

  ghost predicate IsFence(line: string) { exists indent, info :: FenceSpelling(line, indent, info) }

  ghost predicate IsBullet(line: string, item: string) {
    exists indent, mark, gap :: BulletSpelling(line, indent, mark, gap, item)
  }

  ghost predicate IsHeading(line: string, title: string) {
    exists indent, hashes, gap, tail :: HeadingSpelling(line, indent, hashes, gap, title, tail)
  }

  lemma FenceIff(line: string)
    ensures Classify(line).FenceMark? <==> IsFence(line)
  {
    if Classify(line).FenceMark? {
      var indent := FenceIsSpelled(line);
    } else if IsFence(line) {
      var indent, info :| FenceSpelling(line, indent, info);
      FenceReads(line, indent, info);
      assert false;
    }
  }

  lemma BulletIff(line: string, item: string)
    ensures Classify(line) == Bullet(item) <==> IsBullet(line, item)
  {
    if Classify(line) == Bullet(item) {
      var indent, mark, gap := BulletIsSpelled(line);
    } else if IsBullet(line, item) {
      var indent, mark, gap :| BulletSpelling(line, indent, mark, gap, item);
      BulletReads(line, indent, mark, gap, item);
      assert false;
    }
  }

  lemma HeadingIff(line: string, title: string)
    ensures Classify(line) == Heading(title) <==> IsHeading(line, title)
  {
    if Classify(line) == Heading(title) {
      var indent, hashes, gap, tail := HeadingIsSpelled(line);
    } else if IsHeading(line, title) {
      var indent, hashes, gap, tail :| HeadingSpelling(line, indent, hashes, gap, title, tail);
      HeadingReads(line, indent, hashes, gap, title, tail);
      assert false;
    }
  }

  /**
   What every line is, by its characters: a fence mark, a bullet with its item, a heading with its
   title, blank where all of it is white space, and a paragraph otherwise.
   */
  lemma LineKindIff(line: string)
    ensures Classify(line).FenceMark? <==> IsFence(line)
    ensures forall item :: Classify(line) == Bullet(item) <==> IsBullet(line, item)
    ensures forall title :: Classify(line) == Heading(title) <==> IsHeading(line, title)
    ensures Classify(line) == BlankLine <==> AllSpace(line)
    ensures Classify(line) == Paragraph <==>
      !AllSpace(line) && !IsFence(line) && (forall text :: !IsBullet(line, text)) && (forall text :: !IsHeading(line, text))
  {
    FenceIff(line);
    BlankIff(line);
    forall text ensures Classify(line) == Bullet(text) <==> IsBullet(line, text) { BulletIff(line, text); }
    forall text ensures Classify(line) == Heading(text) <==> IsHeading(line, text) { HeadingIff(line, text); }
  }

  /** The tag of a fence is what stands after its backticks, trimmed and in lower case; white space is no tag. */
  lemma FenceTag(line: string, indent: string, info: string) returns (left: string, word: string, right: string)
    requires FenceSpelling(line, indent, info)
    ensures info == left + word + right && AllSpace(left + right)
    ensures Flush(word) && (word != "" ==> !IsSpace(word[|word| - 1]))
    ensures Classify(line) == FenceMark(if word == "" then None else Some(Lower(word)))
  {
    FenceReads(line, indent, info);
    left, right := TrimIs(info);
    word := Trim(info);
    assert forall i | 0 <= i < |left + right| :: (left + right)[i] in left + right;
  }
}
