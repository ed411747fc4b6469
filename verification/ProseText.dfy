/** Where every line of a text goes: into which block, or into which fence, or nowhere. */
module ProseText {
  import opened Options
  import opened Sequences
  import opened Strings
  import opened Prose
  import opened ProseLines
  import opened ProseTheorems

  /** The fence marks among the first `i` lines. */
  ghost function MarksBefore(lines: seq<string>, i: nat): nat
    requires i <= |lines|
  {
    if i == 0 then 0 else MarksBefore(lines, i - 1) + if IsFence(lines[i - 1]) then 1 else 0
  }

  ghost predicate Open(lines: seq<string>, i: nat)
    requires i <= |lines|
  {
    MarksBefore(lines, i) % 2 == 1
  }

  ghost predicate Outside(lines: seq<string>, i: nat) {
    i < |lines| && !IsFence(lines[i]) && !Open(lines, i)
  }

  ghost predicate Inside(lines: seq<string>, i: nat) {
    i < |lines| && !IsFence(lines[i]) && Open(lines, i)
  }

  lemma OpenNext(lines: seq<string>, i: nat)
    requires i < |lines|
    ensures Open(lines, i + 1) <==> Open(lines, i) != IsFence(lines[i])
  {
  }

  /** A line to be read: outside fences, with a character that is no white space, and no heading of nothing. */
  ghost predicate Spoken(lines: seq<string>, i: nat) {
    Outside(lines, i) && !AllSpace(lines[i]) && !IsHeading(lines[i], "")
  }

  /** The line is its marker around the text, or the text itself where it has no marker. */
  ghost predicate Dresses(line: string, part: Part) {
    match part
    case Item(text) => IsBullet(line, text)
    case Title(text) => IsHeading(line, text)
    case Words(text) => line == text && (forall t :: !IsBullet(line, t)) && (forall t :: !IsHeading(line, t))
  }

  ghost predicate Increasing(places: seq<nat>, from: nat, to: nat) {
    && (forall k | 0 <= k < |places| :: from <= places[k] < to)
    && (forall j, k | 0 <= j < k < |places| :: places[j] < places[k])
  }

  /** `parts` are the spoken lines from line `i` on, at `places`. */
  ghost predicate Placed(lines: seq<string>, i: nat, places: seq<nat>, parts: seq<Part>) {
    && Increasing(places, i, |lines|)
    && (forall m | i <= m < |lines| :: m in places <==> Spoken(lines, m))
    && |places| == |parts|
    && (forall k | 0 <= k < |places| :: Dresses(lines[places[k]], parts[k]))
  }

  lemma SayingIff(line: string)
    requires !IsFence(line)
    ensures
      var saying := Saying(Line(line, Classify(line)));
      if AllSpace(line) || IsHeading(line, "") then saying == [] else |saying| == 1 && Dresses(line, saying[0])
  {
    LineKindIff(line);
  }

  lemma PlacedNext(lines: seq<string>, i: nat, places: seq<nat>, parts: seq<Part>, saying: seq<Part>)
    returns (places': seq<nat>)
    requires i < |lines| && Placed(lines, i + 1, places, parts)
    requires if Spoken(lines, i) then |saying| == 1 && Dresses(lines[i], saying[0]) else saying == []
    ensures Placed(lines, i, places', saying + parts)
  {
    if Spoken(lines, i) {
      places' := [i] + places;
      assert forall k | 1 <= k < |places'| :: places'[k] == places[k - 1] && (saying + parts)[k] == parts[k - 1];
    } else {
      places' := places;
      assert saying + parts == parts;
    }
  }

  lemma SaidNow(lines: seq<string>, i: nat) returns (saying: seq<Part>)
    requires i < |lines|
    ensures Said(Read(lines), i, Open(lines, i)) == saying + Said(Read(lines), i + 1, Open(lines, i + 1))
    ensures if Spoken(lines, i) then |saying| == 1 && Dresses(lines[i], saying[0]) else saying == []
  {
    FenceIff(lines[i]);
    OpenNext(lines, i);
    SaidStep(Read(lines), i, Open(lines, i));
    if Outside(lines, i) {
      SayingIff(lines[i]);
      saying := Saying(Read(lines)[i]);
    } else {
      saying := [];
      Assoc([], Said(Read(lines), i + 1, Open(lines, i + 1)), []);
    }
  }

  /** What is said from line `i` on are the spoken lines, each once and in order. */
  lemma {:induction false} SaidIsPlaced(lines: seq<string>, i: nat) returns (places: seq<nat>)
    requires i <= |lines|
    ensures Placed(lines, i, places, Said(Read(lines), i, Open(lines, i)))
    decreases |lines| - i
  {
    if i == |lines| {
      places := [];
    } else {
      places := SaidIsPlaced(lines, i + 1);
      var saying := SaidNow(lines, i);
      places := PlacedNext(lines, i, places, Said(Read(lines), i + 1, Open(lines, i + 1)), saying);
    }
  }

  // ---------------------------------------------------------------------------
  // Fenced lines

  /** `texts` are the fenced lines from line `i` on, at `places`. */
  ghost predicate FencedAt(lines: seq<string>, i: nat, places: seq<nat>, texts: seq<string>) {
    && Increasing(places, i, |lines|)
    && (forall m | i <= m < |lines| :: m in places <==> Inside(lines, m))
    && |places| == |texts|
    && (forall k | 0 <= k < |places| :: texts[k] == lines[places[k]])
  }

  lemma FencedNext(lines: seq<string>, i: nat, places: seq<nat>, texts: seq<string>, now: seq<string>)
    returns (places': seq<nat>)
    requires i < |lines| && FencedAt(lines, i + 1, places, texts)
    requires now == if Inside(lines, i) then [lines[i]] else []
    ensures FencedAt(lines, i, places', now + texts)
  {
    if Inside(lines, i) {
      places' := [i] + places;
      assert forall k | 1 <= k < |places'| :: places'[k] == places[k - 1] && (now + texts)[k] == texts[k - 1];
    } else {
      places' := places;
      assert now + texts == texts;
    }
  }

  lemma FencedStep(lines: seq<Line>, i: nat, inFence: bool)
    requires i < |lines|
    ensures Fenced(lines, i, inFence) ==
      (if inFence && !lines[i].kind.FenceMark? then [lines[i].text] else [])
        + Fenced(lines, i + 1, inFence != lines[i].kind.FenceMark?)
  {
  }

  lemma FencedNow(lines: seq<string>, i: nat) returns (now: seq<string>)
    requires i < |lines|
    ensures Fenced(Read(lines), i, Open(lines, i)) == now + Fenced(Read(lines), i + 1, Open(lines, i + 1))
    ensures now == if Inside(lines, i) then [lines[i]] else []
  {
    FenceIff(lines[i]);
    OpenNext(lines, i);
    FencedStep(Read(lines), i, Open(lines, i));
    now := if Inside(lines, i) then [lines[i]] else [];
  }

  lemma {:induction false} FencedIsPlaced(lines: seq<string>, i: nat) returns (places: seq<nat>)
    requires i <= |lines|
    ensures FencedAt(lines, i, places, Fenced(Read(lines), i, Open(lines, i)))
    decreases |lines| - i
  {
    if i == |lines| {
      places := [];
    } else {
      places := FencedIsPlaced(lines, i + 1);
      var now := FencedNow(lines, i);
      places := FencedNext(lines, i, places, Fenced(Read(lines), i + 1, Open(lines, i + 1)), now);
    }
  }

  /** A fence is printed, its lines joined, unless all of it is white space or it is, trimmed, the carded statement. */
  lemma FencePrintedIff(fence: Fence, carded: Option<string>)
    ensures
      var code := Join(fence.lines, "\n");
      if AllSpace(code) || Some(Trim(code)) == carded then FenceBody(fence, carded) == []
      else FenceBody(fence, carded) == [CodeOf(code, fence.tag)]
  {
    BlankIff(Join(fence.lines, "\n"));
  }

  lemma SpokenPlaces(lines: seq<string>) returns (places: seq<nat>)
    ensures Placed(lines, 0, places, Said(Read(lines), 0, false))
  {
    assert !Open(lines, 0);
    places := SaidIsPlaced(lines, 0);
  }

  lemma FencedPlaces(lines: seq<string>) returns (places: seq<nat>)
    ensures FencedAt(lines, 0, places, Fenced(Read(lines), 0, false))
  {
    assert !Open(lines, 0);
    places := FencedIsPlaced(lines, 0);
  }

  /**
   Every line of every text is accounted for by its characters. Outside fences a line with a character
   that is no white space, unless it is a heading of nothing, is its marker around one text of the
   blocks, once and in order, and nothing else is. Inside fences each line stands in the fences as it is.
   */
  lemma LinesAreConserved(text: string, carded: Option<string>) returns (spoken: seq<nat>, fenced: seq<nat>)
    ensures
      var lines, bodies := SplitOn(text, '\n'), Prosed(text, carded);
      && Placed(lines, 0, spoken, AllParts(bodies))
      && FencedAt(lines, 0, fenced, LinesOf(Fences(Read(lines), 0, None)))
      && CodesIn(bodies) == Printed(Fences(Read(lines), 0, None), Printer(carded))
  {
    var lines := SplitOn(text, '\n');
    ProseIsConserved(text, carded);
    spoken := SpokenPlaces(lines);
    fenced := FencedPlaces(lines);
  }
}
