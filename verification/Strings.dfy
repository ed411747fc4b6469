/** Characters and strings as JavaScript reads them. */
module Strings {
  import opened Options
  import opened Sequences

  /** What `\s` and `trim` take for white space. */
  predicate IsSpace(c: char) {
    var n := c as int;
    || 9 <= n <= 13 || n == 0x20 || n == 0xA0 || n == 0x1680 || 0x2000 <= n <= 0x200A
    || n == 0x2028 || n == 0x2029 || n == 0x202F || n == 0x205F || n == 0x3000 || n == 0xFEFF
  }

  predicate IsDigit(c: char) { '0' <= c <= '9' }

  function TrimStart(s: string): (r: string)
    ensures |r| <= |s| && r == s[|s| - |r|..]
    ensures r != "" ==> !IsSpace(r[0])
  {
    if s != "" && IsSpace(s[0]) then TrimStart(s[1..]) else s
  }

  function TrimEnd(s: string): (r: string)
    ensures |r| <= |s| && r == s[..|r|]
    ensures r != "" ==> !IsSpace(r[|r| - 1])
  {
    if s != "" && IsSpace(s[|s| - 1]) then TrimEnd(s[..|s| - 1]) else s
  }

  function Trim(s: string): string {
    TrimEnd(TrimStart(s))
  }

  /** Upper and lower case, of ASCII letters only. */
  function Upper(s: string): string {
    seq(|s|, i requires 0 <= i < |s| => if 'a' <= s[i] <= 'z' then s[i] - 32 as char else s[i])
  }

  function Lower(s: string): string {
    seq(|s|, i requires 0 <= i < |s| => if 'A' <= s[i] <= 'Z' then s[i] + 32 as char else s[i])
  }

  /** One letter in either case. */
  predicate SameLetter(c: char, d: char) {
    c == d || ('a' <= c <= 'z' && c - 32 as char == d) || ('A' <= c <= 'Z' && c + 32 as char == d)
  }

  predicate SameWord(s: string, word: string) {
    |s| == |word| && forall k | 0 <= k < |s| :: SameLetter(s[k], word[k])
  }

  lemma LetterIff(c: char, d: char)
    ensures Lower([c])[0] == Lower([d])[0] <==> SameLetter(c, d)
  {
  }

  /** Comparing in lower case is comparing letter by letter in either case. */
  lemma LowerIff(s: string, word: string)
    ensures Lower(s) == Lower(word) <==> SameWord(s, word)
  {
    if |s| == |word| {
      forall k | 0 <= k < |s| ensures Lower(s)[k] == Lower(word)[k] <==> SameLetter(s[k], word[k]) {
        LetterIff(s[k], word[k]);
      }
    }
    assert |Lower(s)| == |s| && |Lower(word)| == |word|;
  }

  /** Trimming takes the white space off both ends and nothing else. */
  lemma TrimIs(s: string) returns (left: string, right: string)
    ensures s == left + Trim(s) + right && forall c <- left + right :: IsSpace(c)
    ensures Trim(s) != "" ==> !IsSpace(Trim(s)[0]) && !IsSpace(Trim(s)[|Trim(s)| - 1])
  {
    var t := TrimStart(s);
    left := StartComesOff(s);
    right := EndComesOff(t);
    Assoc(left, Trim(s), right);
    assert Trim(s) != "" ==> Trim(s)[0] == t[0];
  }

  lemma StartComesOff(s: string) returns (left: string)
    ensures s == left + TrimStart(s) && forall c <- left :: IsSpace(c)
  {
    StartIsSpace(s);
    left := s[..|s| - |TrimStart(s)|];
    assert forall i | 0 <= i < |left| :: left[i] == s[i];
  }

  lemma EndComesOff(s: string) returns (right: string)
    ensures s == TrimEnd(s) + right && forall c <- right :: IsSpace(c)
  {
    EndIsSpace(s);
    right := s[|TrimEnd(s)|..];
    assert forall i | 0 <= i < |right| :: right[i] == s[i + |TrimEnd(s)|];
  }

  lemma {:induction false} StartIsSpaceAt(s: string, i: nat)
    requires i < |s| - |TrimStart(s)|
    ensures IsSpace(s[i])
  {
    if i > 0 {
      StartIsSpaceAt(s[1..], i - 1);
    }
  }

  lemma StartIsSpace(s: string)
    ensures forall i | 0 <= i < |s| - |TrimStart(s)| :: IsSpace(s[i])
  {
    forall i | 0 <= i < |s| - |TrimStart(s)| ensures IsSpace(s[i]) {
      StartIsSpaceAt(s, i);
    }
  }

  lemma {:induction false} EndIsSpace(s: string)
    ensures forall i | |TrimEnd(s)| <= i < |s| :: IsSpace(s[i])
  {
    if s != "" && IsSpace(s[|s| - 1]) {
      EndIsSpace(s[..|s| - 1]);
    }
  }

  /** `s.replace(/c/g, sub)` */
  function ReplaceAll(s: string, c: char, sub: string): string {
    if s == "" then "" else (if s[0] == c then sub else [s[0]]) + ReplaceAll(s[1..], c, sub)
  }

  function Join(parts: seq<string>, separator: string): string {
    if parts == [] then ""
    else if |parts| == 1 then parts[0]
    else parts[0] + separator + Join(parts[1..], separator)
  }

  /** `parts.join("")` */
  function Flat(parts: seq<string>): string {
    if parts == [] then "" else parts[0] + Flat(parts[1..])
  }

  lemma {:induction false} FlatConcat(a: seq<string>, b: seq<string>)
    ensures Flat(a + b) == Flat(a) + Flat(b)
  {
    if a == [] {
      assert a + b == b;
    } else {
      FlatConcat(a[1..], b);
      assert (a + b)[1..] == a[1..] + b;
      Assoc(a[0], Flat(a[1..]), Flat(b));
    }
  }

  predicate Starts(text: string, prefix: string) {
    |prefix| <= |text| && text[..|prefix|] == prefix
  }

  /** What follows a prefix, if the text has it. */
  function Strip(text: string, prefix: string): (r: Option<string>)
    ensures r.Some? ==> text == prefix + r.value
  {
    if Starts(text, prefix) then Some(text[|prefix|..]) else None
  }

  lemma StripPrefix(prefix: string, rest: string)
    ensures Starts(prefix + rest, prefix) && Strip(prefix + rest, prefix) == Some(rest)
  {
  }

  lemma StripOther(text: string, prefix: string, k: nat)
    requires k < |prefix| && (k < |text| ==> text[k] != prefix[k])
    ensures !Starts(text, prefix) && Strip(text, prefix) == None
  {
    assert |prefix| <= |text| ==> text[..|prefix|][k] == text[k];
  }

  // ---------------------------------------------------------------------------
  // Decimal numerals

  function Digit(n: nat): char
    requires n < 10
  {
    '0' + n as char
  }

  function Decimal(n: nat): (s: string)
    ensures s != "" && forall c <- s :: IsDigit(c)
  {
    if n < 10 then [Digit(n)] else Decimal(n / 10) + [Digit(n % 10)]
  }

  function DigitValue(c: char): nat
    requires IsDigit(c)
  {
    c as int - '0' as int
  }

  function ReadDecimal(s: string): nat
    requires forall c <- s :: IsDigit(c)
  {
    if s == "" then 0 else 10 * ReadDecimal(s[..|s| - 1]) + DigitValue(s[|s| - 1])
  }

  lemma {:induction false} DecimalReadsBack(n: nat)
    ensures ReadDecimal(Decimal(n)) == n
  {
    if n >= 10 {
      DecimalReadsBack(n / 10);
      var s := Decimal(n);
      assert s[..|s| - 1] == Decimal(n / 10);
    } else {
      assert [Digit(n)][..0] == "";
    }
  }

  // ---------------------------------------------------------------------------
  // Runs of characters

  /** Length of the longest prefix of `s` whose characters all satisfy `p`. */
  function RunLength(s: string, p: char -> bool): (n: nat)
    ensures n <= |s|
    ensures forall i | 0 <= i < n :: p(s[i])
    ensures n < |s| ==> !p(s[n])
  {
    if s != "" && p(s[0]) then 1 + RunLength(s[1..], p) else 0
  }

  lemma {:induction false} RunLengthOf(word: string, rest: string, p: char -> bool)
    requires forall c <- word :: p(c)
    requires rest != "" ==> !p(rest[0])
    ensures RunLength(word + rest, p) == |word|
  {
    if word == "" {
      assert word + rest == rest;
    } else {
      assert (word + rest)[1..] == word[1..] + rest;
      RunLengthOf(word[1..], rest, p);
    }
  }

  // ---------------------------------------------------------------------------
  // Splitting at a character

  /** `text.split(c)` */
  function SplitOn(text: string, c: char): (parts: seq<string>)
    ensures parts != []
    decreases |text|
  {
    var k := RunLength(text, (x: char) => x != c);
    if k == |text| then [text] else [text[..k]] + SplitOn(text[k + 1..], c)
  }

  lemma SplitNone(part: string, c: char)
    requires c !in part
    ensures SplitOn(part, c) == [part]
  {
    RunLengthOf(part, "", (x: char) => x != c);
    assert part + "" == part;
  }

  lemma SplitAt(text: string, k: nat, c: char)
    requires k == RunLength(text, (x: char) => x != c) < |text|
    ensures SplitOn(text, c) == [text[..k]] + SplitOn(text[k + 1..], c)
  {
  }

  lemma SplitFirst(part: string, c: char, rest: string)
    requires c !in part
    ensures SplitOn(part, c) == [part]
    ensures SplitOn(part + ([c] + rest), c) == [part] + SplitOn(rest, c)
  {
    SplitNone(part, c);
    RunLengthOf(part, [c] + rest, (x: char) => x != c);
    var text := part + ([c] + rest);
    assert text[..|part|] == part && text[|part| + 1..] == rest;
    SplitAt(text, |part|, c);
  }

  /** Splitting undoes joining, where no part holds the separator. */
  lemma {:induction false} SplitJoins(parts: seq<string>, c: char)
    requires parts != [] && forall part <- parts :: c !in part
    ensures SplitOn(Join(parts, [c]), c) == parts
  {
    if |parts| == 1 {
      SplitFirst(parts[0], c, "");
    } else {
      var rest := Join(parts[1..], [c]);
      assert parts[0] + [c] + rest == parts[0] + ([c] + rest);
      SplitFirst(parts[0], c, rest);
      SplitJoins(parts[1..], c);
    }
  }

  lemma JoinFirst(first: string, parts: seq<string>, separator: string)
    requires parts != []
    ensures Join([first] + parts, separator) == first + separator + Join(parts, separator)
  {
    assert ([first] + parts)[1..] == parts;
  }

  lemma CutAt(text: string, k: nat)
    requires k < |text|
    ensures text[..k] + [text[k]] + text[k + 1..] == text
  {
  }

  /** And joining undoes splitting, for every text. */
  lemma {:induction false} JoinOfSplit(text: string, c: char)
    ensures Join(SplitOn(text, c), [c]) == text
    decreases |text|
  {
    var k := RunLength(text, (x: char) => x != c);
    if k < |text| {
      JoinOfSplit(text[k + 1..], c);
      JoinFirst(text[..k], SplitOn(text[k + 1..], c), [c]);
      CutAt(text, k);
    }
  }

  lemma {:induction false} JoinLast(parts: seq<string>, last: string, separator: string)
    requires parts != []
    ensures Join(parts + [last], separator) == Join(parts, separator) + (separator + last)
  {
    var all := parts + [last];
    assert all[1..] == parts[1..] + [last];
    if |parts| == 1 {
      assert parts[1..] + [last] == [last];
      assert all[0] + separator + last == parts[0] + (separator + last);
    } else {
      JoinLast(parts[1..], last, separator);
      var rest := Join(parts[1..], separator);
      assert parts[0] + separator + (rest + (separator + last)) == (parts[0] + separator + rest) + (separator + last);
    }
  }
}
