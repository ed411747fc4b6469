/** How an object's address is written into a statement (`quoteObjectPath`): each segment quoted only where it must be. */
module ObjectPath {
  import opened Options
  import opened Sequences
  import opened Strings
  import opened SqlText

  /** What the provider's capabilities say of quoting: a declaration, or else the default port. */
  datatype Capabilities =
    | JsonLanguage
    | DeclaredDouble | DeclaredBacktick
    | Couchbase | Druid | OraclePort | SqlServerPort | MySqlPort | OtherPort

  predicate IsLetter(c: char) { 'a' <= c <= 'z' || 'A' <= c <= 'Z' }

  predicate IsLowerWord(c: char) { 'a' <= c <= 'z' || c == '_' || IsDigit(c) || c == '$' }
  predicate IsUpperWord(c: char) { 'A' <= c <= 'Z' || c == '_' || IsDigit(c) || c == '$' || c == '#' }
  predicate IsWord(c: char) { IsLetter(c) || c == '_' || IsDigit(c) }
  predicate IsDollarWord(c: char) { IsWord(c) || c == '$' }

  /** `/^[start][rest]*$/`, where what may start is what may follow but for digits, `$` and `#`. */
  predicate Word(name: string, rest: char -> bool) {
    && name != "" && (IsLetter(name[0]) || name[0] == '_')
    && forall c <- name :: rest(c)
  }

  /** A name that round-trips without quotes. */
  predicate Bare(name: string, caps: Capabilities) {
    match caps
    case JsonLanguage => true
    case DeclaredDouble => Word(name, IsLowerWord)
    case DeclaredBacktick => Word(name, IsDollarWord)
    case Couchbase => false
    case Druid => false
    case OraclePort => Word(name, IsUpperWord)
    case SqlServerPort => Word(name, IsWord)
    case MySqlPort => Word(name, IsDollarWord)
    case OtherPort => Word(name, IsLowerWord)
  }

  function QuotesOf(caps: Capabilities): (char, char) {
    match caps
    case DeclaredBacktick => ('`', '`')
    case Couchbase => ('`', '`')
    case MySqlPort => ('`', '`')
    case SqlServerPort => ('[', ']')
    case _ => ('"', '"')
  }

  /** Whether a segment goes in quotes; without capabilities nothing does. */
  predicate Quoted(segment: string, caps: Option<Capabilities>) {
    caps.Some? && !Bare(segment, caps.value)
  }

  function SegmentText(segment: string, caps: Option<Capabilities>): string {
    if Quoted(segment, caps) then QuoteNameAs(segment, QuotesOf(caps.value)) else segment
  }

  function SegmentTexts(path: seq<string>, caps: Option<Capabilities>): (r: seq<string>)
    ensures |r| == |path|
  {
    if path == [] then [] else [SegmentText(path[0], caps)] + SegmentTexts(path[1..], caps)
  }

  /** `quoteObjectPath`, or the dotted label where the capabilities are not known yet. */
  function PathText(path: seq<string>, caps: Option<Capabilities>): string {
    Join(SegmentTexts(path, caps), ".")
  }

  // ---------------------------------------------------------------------------
  // How an engine reads a name

  /** The engine's quote characters, whether `#` is a word character, and its reserved words in upper case. */
  datatype Lexicon = Lexicon(quotes: (char, char), hash: bool, reserved: set<string>)

  predicate IsHashWord(c: char) { IsDollarWord(c) || c == '#' }

  function WordChars(hash: bool): char -> bool {
    if hash then IsHashWord else IsDollarWord
  }

  /** A name the engine takes without quotes. */
  predicate Plain(name: string, lex: Lexicon) {
    Word(name, WordChars(lex.hash)) && Upper(name) !in lex.reserved
  }

  predicate GoodQuotes(quotes: (char, char)) {
    quotes == ('"', '"') || quotes == ('`', '`') || quotes == ('[', ']')
  }

  /** The engine reads the quotes its capabilities say it does. */
  predicate Fits(lex: Lexicon, caps: Option<Capabilities>) {
    GoodQuotes(lex.quotes) && (caps.Some? && caps != Some(JsonLanguage) ==> lex.quotes == QuotesOf(caps.value))
  }

  /** The reader finds `x`, wherever it stops. */
  predicate Gives<T(==)>(r: Option<(T, string)>, x: T) {
    r.Some? && r.value.0 == x
  }

  /** A quoted name, or the longest word that starts here. */
  function ReadSegment(text: string, lex: Lexicon): (r: Option<(string, string)>)
    ensures r.Some? ==> |r.value.1| < |text|
  {
    if text == "" then None
    else if text[0] == lex.quotes.0 then ReadName(text[1..], lex.quotes.1)
    else
      var k := RunLength(text, WordChars(lex.hash));
      if Plain(text[..k], lex) then Some((text[..k], text[k..])) else None
  }

  /** Names joined by dots. */
  function ReadPath(text: string, lex: Lexicon): (r: Option<(seq<string>, string)>)
    ensures r.Some? ==> |r.value.1| < |text| && r.value.0 != []
    decreases |text|
  {
    match ReadSegment(text, lex)
    case None => None
    case Some((segment, rest)) =>
      if !Starts(rest, ".") then Some(([segment], rest))
      else
        match ReadPath(rest[1..], lex)
        case None => None
        case Some((more, rest')) => Some(([segment] + more, rest'))
  }

  // ---------------------------------------------------------------------------
  // A name reads back exactly where it is quoted or plain

  /** What follows a name: no word character, and neither of the quotes. */
  predicate EndsWord(rest: string, lex: Lexicon) {
    && rest != "" && !WordChars(lex.hash)(rest[0]) && !IsHashWord(rest[0])
    && rest[0] != lex.quotes.0 && rest[0] != lex.quotes.1
  }

  lemma PlainReadsBack(name: string, lex: Lexicon, rest: string)
    requires GoodQuotes(lex.quotes) && Plain(name, lex) && EndsWord(rest, lex)
    ensures ReadSegment(name + rest, lex) == Some((name, rest))
  {
    RunLengthOf(name, rest, WordChars(lex.hash));
    var text := name + rest;
    assert text[..|name|] == name && text[|name|..] == rest && text[0] == name[0];
  }

  lemma QuotedReadsBack(name: string, lex: Lexicon, rest: string)
    requires EndsWord(rest, lex)
    ensures ReadSegment(QuoteNameAs(name, lex.quotes) + rest, lex) == Some((name, rest))
  {
    IdentifierReadsBack(name, lex.quotes, rest);
  }

  /** One quote character is written for each, or two. */
  lemma {:induction false} ReadNameIsEscaped(text: string, close: char)
    requires ReadName(text, close).Some?
    ensures
      var (name, rest) := ReadName(text, close).value;
      text == ReplaceAll(name, close, [close, close]) + ([close] + rest)
  {
    if text[0] == close && !(|text| > 1 && text[1] == close) {
      assert text == [close] + text[1..];
    } else {
      var k := if text[0] == close then 2 else 1;
      ReadNameIsEscaped(text[k..], close);
      var (name, rest) := ReadName(text[k..], close).value;
      var head := if text[0] == close then [close, close] else [text[0]];
      assert text == head + text[k..];
      assert ([text[0]] + name)[1..] == name;
      Assoc(head, ReplaceAll(name, close, [close, close]), [close] + rest);
    }
  }

  /** Escaping a run of one character gives a run of it, no shorter. */
  lemma {:induction false} EscapedRun(name: string, close: char, k: nat, c: char)
    requires k <= |name| && forall i | 0 <= i < k :: name[i] == c
    ensures |ReplaceAll(name, close, [close, close])| >= |name|
    ensures forall i | 0 <= i < k :: ReplaceAll(name, close, [close, close])[i] == c
  {
    if name != "" {
      if k > 0 {
        assert forall i | 0 <= i < k - 1 :: name[1..][i] == name[i + 1];
        EscapedRun(name[1..], close, k - 1, c);
      } else {
        EscapedRun(name[1..], close, 0, c);
      }
    }
  }

  /** Text that is a name followed by its end is not that name in quotes. */
  lemma NotItsOwnQuotation(name: string, quotes: (char, char), rest: string, after: string)
    requires rest != "" && rest[0] != quotes.0
    ensures name + rest != [quotes.0] + (ReplaceAll(name, quotes.1, [quotes.1, quotes.1]) + ([quotes.1] + after))
  {
    var escaped := ReplaceAll(name, quotes.1, [quotes.1, quotes.1]);
    assert (name + rest)[|name|] == rest[0];
    if name + rest == [quotes.0] + (escaped + ([quotes.1] + after)) {
      AllOpen(name, quotes, rest, after, |name|);
    }
  }

  lemma {:induction false} AllOpen(name: string, quotes: (char, char), rest: string, after: string, k: nat)
    requires k <= |name| && rest != ""
    requires name + rest == [quotes.0] + (ReplaceAll(name, quotes.1, [quotes.1, quotes.1]) + ([quotes.1] + after))
    ensures forall i | 0 <= i <= k :: (name + rest)[i] == quotes.0
  {
    if k > 0 {
      AllOpen(name, quotes, rest, after, k - 1);
      assert forall i | 0 <= i < k :: name[i] == (name + rest)[i];
      EscapedRun(name, quotes.1, k, quotes.0);
      var escaped := ReplaceAll(name, quotes.1, [quotes.1, quotes.1]);
      assert (name + rest)[k] == escaped[k - 1];
    } else {
      assert (name + rest)[0] == quotes.0;
    }
  }

  /** Written without quotes a name reads back as itself if and only if it is plain. */
  lemma RawReadsBackIff(name: string, lex: Lexicon, rest: string)
    requires GoodQuotes(lex.quotes) && EndsWord(rest, lex)
    ensures Gives(ReadSegment(name + rest, lex), name) <==> Plain(name, lex)
    ensures Plain(name, lex) ==> ReadSegment(name + rest, lex) == Some((name, rest))
  {
    if Plain(name, lex) {
      PlainReadsBack(name, lex, rest);
    } else if Gives(ReadSegment(name + rest, lex), name) {
      var after := ReadSegment(name + rest, lex).value.1;
      var text := name + rest;
      assert text[0] == lex.quotes.0;
      ReadNameIsEscaped(text[1..], lex.quotes.1);
      assert text == [text[0]] + text[1..];
      NotItsOwnQuotation(name, lex.quotes, rest, after);
    }
  }

  // ---------------------------------------------------------------------------
  // Addresses

  /** The segment is in quotes, or needs none. */
  predicate Spelled(segment: string, caps: Option<Capabilities>, lex: Lexicon) {
    Quoted(segment, caps) || Plain(segment, lex)
  }

  lemma SegmentReadsBackIff(segment: string, caps: Option<Capabilities>, lex: Lexicon, rest: string)
    requires Fits(lex, caps) && EndsWord(rest, lex)
    ensures Gives(ReadSegment(SegmentText(segment, caps) + rest, lex), segment) <==> Spelled(segment, caps, lex)
    ensures Spelled(segment, caps, lex) ==> ReadSegment(SegmentText(segment, caps) + rest, lex) == Some((segment, rest))
  {
    if Quoted(segment, caps) {
      QuotedReadsBack(segment, lex, rest);
    } else {
      RawReadsBackIff(segment, lex, rest);
    }
  }

  lemma PathTextCons(path: seq<string>, caps: Option<Capabilities>, rest: string)
    requires path != []
    ensures PathText(path, caps) + rest == SegmentText(path[0], caps) +
      if |path| == 1 then rest else "." + (PathText(path[1..], caps) + rest)
  {
    var texts := SegmentTexts(path, caps);
    assert texts[1..] == SegmentTexts(path[1..], caps);
    if |path| > 1 {
      Assoc(texts[0] + ".", PathText(path[1..], caps), rest);
      Assoc(texts[0], ".", PathText(path[1..], caps) + rest);
    }
  }

  lemma DotEndsWord(lex: Lexicon, more: string)
    requires GoodQuotes(lex.quotes)
    ensures EndsWord("." + more, lex) && Starts("." + more, ".") && ("." + more)[1..] == more
  {
  }

  lemma LastSegmentReads(text: string, segment: string, rest: string, lex: Lexicon)
    requires ReadSegment(text, lex) == Some((segment, rest)) && !Starts(rest, ".")
    ensures ReadPath(text, lex) == Some(([segment], rest))
  {
  }

  lemma NextSegmentReads(text: string, segment: string, more: string, lex: Lexicon)
    requires ReadSegment(text, lex) == Some((segment, "." + more)) && GoodQuotes(lex.quotes)
    ensures ReadPath(text, lex) ==
      if ReadPath(more, lex).Some? then Some(([segment] + ReadPath(more, lex).value.0, ReadPath(more, lex).value.1)) else None
  {
    DotEndsWord(lex, more);
  }

  lemma FirstSegmentOf(text: string, lex: Lexicon)
    requires ReadPath(text, lex).Some?
    ensures ReadSegment(text, lex).Some? && ReadSegment(text, lex).value.0 == ReadPath(text, lex).value.0[0]
  {
  }

  /** An address reads back as its own segments if and only if each is in quotes or needs none. */
  lemma {:induction false} PathReadsBackIff(path: seq<string>, caps: Option<Capabilities>, lex: Lexicon, rest: string)
    requires path != [] && Fits(lex, caps) && EndsWord(rest, lex) && rest[0] != '.'
    ensures Gives(ReadPath(PathText(path, caps) + rest, lex), path) <==> forall segment <- path :: Spelled(segment, caps, lex)
    ensures (forall segment <- path :: Spelled(segment, caps, lex)) ==>
              ReadPath(PathText(path, caps) + rest, lex) == Some((path, rest))
  {
    var text := PathText(path, caps) + rest;
    var more := PathText(path[1..], caps) + rest;
    var tail := if |path| == 1 then rest else "." + more;
    PathTextCons(path, caps, rest);
    DotEndsWord(lex, more);
    SegmentReadsBackIff(path[0], caps, lex, tail);
    assert path == [path[0]] + path[1..];
    assert (forall segment <- path :: Spelled(segment, caps, lex)) <==>
      Spelled(path[0], caps, lex) && forall segment <- path[1..] :: Spelled(segment, caps, lex);
    if !Spelled(path[0], caps, lex) {
      if ReadPath(text, lex).Some? { FirstSegmentOf(text, lex); }
    } else if |path| == 1 {
      LastSegmentReads(text, path[0], rest, lex);
      assert path == [path[0]];
    } else {
      NextSegmentReads(text, path[0], more, lex);
      PathReadsBackIff(path[1..], caps, lex, rest);
      assert forall read: seq<string> :: [path[0]] + read == path <==> read == path[1..] by {
        forall read: seq<string> ensures [path[0]] + read == path <==> read == path[1..] {
          assert ([path[0]] + read)[1..] == read;
        }
      }
    }
  }

  /** A bare segment is a word of the engine, so with no reserved words every address reads back. */
  lemma AddressesReadBack(path: seq<string>, caps: Capabilities, lex: Lexicon, rest: string)
    requires path != [] && caps != JsonLanguage && Fits(lex, Some(caps)) && EndsWord(rest, lex) && rest[0] != '.'
    requires lex.reserved == {} && (caps == OraclePort ==> lex.hash)
    ensures ReadPath(PathText(path, Some(caps)) + rest, lex) == Some((path, rest))
  {
    forall segment | segment in path ensures Spelled(segment, Some(caps), lex) {
      if Bare(segment, caps) { BareIsAWord(segment, caps, lex.hash); }
    }
    PathReadsBackIff(path, Some(caps), lex, rest);
  }

  lemma BareIsAWord(name: string, caps: Capabilities, hash: bool)
    requires Bare(name, caps) && caps != JsonLanguage && (caps == OraclePort ==> hash)
    ensures Word(name, WordChars(hash))
  {
  }

  // ---------------------------------------------------------------------------
  // Which segments need quotes

  /** What the engine makes of a name without quotes: upper case, lower case, or the name as it is. */
  function Folded(name: string, caps: Capabilities): string {
    match caps
    case OraclePort => Upper(name)
    case DeclaredDouble => Lower(name)
    case OtherPort => Lower(name)
    case _ => name
  }

  /** A letter or `_`, then also digits and the signs the engine takes for letters. */
  predicate IsEngineWord(name: string, caps: Capabilities) {
    && name != "" && !(name[0] in {'$', '#'} || '0' <= name[0] <= '9')
    && forall k | 0 <= k < |name| ::
         var c := name[k];
         || 'a' <= c <= 'z' || 'A' <= c <= 'Z' || '0' <= c <= '9' || c == '_'
         || (c == '$' && caps != SqlServerPort) || (c == '#' && caps == OraclePort)
  }

  lemma FoldedIff(name: string, caps: Capabilities)
    ensures Folded(name, caps) == name <==>
      forall k | 0 <= k < |name| ::
        if caps == OraclePort then !('a' <= name[k] <= 'z')
        else caps in {DeclaredDouble, OtherPort} ==> !('A' <= name[k] <= 'Z')
  {
    var folded := Folded(name, caps);
    assert |folded| == |name|;
    assert folded == name <==> forall k | 0 <= k < |name| :: folded[k] == name[k];
  }

  lemma AllIn(name: string, p: char -> bool)
    ensures (forall c <- name :: p(c)) <==> forall k | 0 <= k < |name| :: p(name[k])
  {
    assert forall k | 0 <= k < |name| :: name[k] in name;
  }

  /**
   A segment stays without quotes exactly where it is a word of an engine that has words to spare and
   folding leaves it as it is: Couchbase and Druid quote every name, a document store none.
   */
  lemma UnquotedIff(segment: string, caps: Capabilities)
    requires caps != JsonLanguage
    ensures !Quoted(segment, Some(caps)) <==>
      caps !in {Capabilities.Couchbase, Capabilities.Druid} && IsEngineWord(segment, caps) && Folded(segment, caps) == segment
  {
    FoldedIff(segment, caps);
    AllIn(segment, IsLowerWord);
    AllIn(segment, IsUpperWord);
    AllIn(segment, IsWord);
    AllIn(segment, IsDollarWord);
  }

  /** The quotes of a name that needs them. */
  lemma QuotesSpelling(caps: Option<Capabilities>)
    ensures SegmentText("a b", caps) ==
      if caps in {None, Some(JsonLanguage)} then "a b"
      else if caps in {Some(DeclaredBacktick), Some(Capabilities.Couchbase), Some(MySqlPort)} then "`a b`"
      else if caps == Some(SqlServerPort) then "[a b]"
      else "\"a b\""
  {
    assert "a b"[1] == ' ' && ' ' in "a b";
    if caps.Some? {
      var (open, close) := QuotesOf(caps.value);
      ReplaceAbsent("a b", close, [close, close]);
      assert [open] + "a b" + [close] == [open, 'a', ' ', 'b', close];
    }
  }
}
