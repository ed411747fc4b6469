/** What the blocks of `renderProse` are, line by line. */
module ProseTheorems {
  import opened Options
  import opened Sequences
  import opened Strings
  import opened Prose

  // ---------------------------------------------------------------------------
  // A structural reading: whole fences and whole lists at a time

  function NextMark(lines: seq<Line>, i: nat): (j: nat)
    ensures i <= |lines| ==> i <= j <= |lines|
    ensures forall k | i <= k < j && k < |lines| :: !lines[k].kind.FenceMark?
    ensures j < |lines| ==> lines[j].kind.FenceMark?
    decreases |lines| - i
  {
    if i >= |lines| || lines[i].kind.FenceMark? then i else NextMark(lines, i + 1)
  }

  function NextNonBullet(lines: seq<Line>, i: nat): (j: nat)
    ensures i <= |lines| ==> i <= j <= |lines|
    ensures forall k | i <= k < j && k < |lines| :: lines[k].kind.Bullet?
    ensures j < |lines| ==> !lines[j].kind.Bullet?
    decreases |lines| - i
  {
    if i >= |lines| || !lines[i].kind.Bullet? then i else NextNonBullet(lines, i + 1)
  }

  function TextsOf(lines: seq<Line>, i: nat, j: nat): seq<string>
    requires i <= j <= |lines|
    decreases j - i
  {
    if i == j then [] else [lines[i].text] + TextsOf(lines, i + 1, j)
  }

  function ItemsOf(lines: seq<Line>, i: nat, j: nat): seq<string>
    requires i <= j <= |lines| && forall k | i <= k < j :: lines[k].kind.Bullet?
    decreases j - i
  {
    if i == j then [] else [lines[i].kind.item] + ItemsOf(lines, i + 1, j)
  }

  /**
   A fence mark opens a block of every line up to the next mark or the end; consecutive bullets
   are one list; every other line stands alone.
   */
  function Structure(lines: seq<Line>, i: nat, show: Fence -> seq<Body>): seq<Body>
    decreases |lines| - i
  {
    if i >= |lines| then []
    else
      match lines[i].kind
      case FenceMark(tag) =>
        var j := NextMark(lines, i + 1);
        show(Fence(tag, TextsOf(lines, i + 1, j))) + Structure(lines, j + 1, show)
      case Bullet(_) =>
        var j := NextNonBullet(lines, i);
        [ListOf(ItemsOf(lines, i, j))] + Structure(lines, j, show)
      case _ => Single(lines[i]) + Structure(lines, i + 1, show)
  }

  lemma FenceLineJoins(lines: seq<Line>, i: nat, fence: Fence, show: Fence -> seq<Body>)
    requires i < |lines| && !lines[i].kind.FenceMark?
    ensures Rest(lines, i, [], Some(fence), show)
         == Rest(lines, i + 1, [], Some(Fence(fence.tag, fence.lines + [lines[i].text])), show)
  {
    Assoc([], Rest(lines, i + 1, [], Some(Fence(fence.tag, fence.lines + [lines[i].text])), show), []);
  }

  lemma FenceCloses(lines: seq<Line>, i: nat, fence: Fence, show: Fence -> seq<Body>)
    requires i <= |lines| && (i < |lines| ==> lines[i].kind.FenceMark?)
    ensures Rest(lines, i, [], Some(fence), show) == show(fence) + Rest(lines, i + 1, [], None, show)
  {
    Assoc([], show(fence), []);
  }

  lemma {:induction false} InsideFence(lines: seq<Line>, i: nat, fence: Fence, show: Fence -> seq<Body>)
    requires i <= |lines|
    ensures
      var j := NextMark(lines, i);
      Rest(lines, i, [], Some(fence), show)
        == show(Fence(fence.tag, fence.lines + TextsOf(lines, i, j))) + Rest(lines, j + 1, [], None, show)
    decreases |lines| - i
  {
    if i < |lines| && !lines[i].kind.FenceMark? {
      var text := [lines[i].text];
      FenceLineJoins(lines, i, fence, show);
      InsideFence(lines, i + 1, Fence(fence.tag, fence.lines + text), show);
      Assoc(fence.lines, text, TextsOf(lines, i + 1, NextMark(lines, i)));
    } else {
      Assoc(fence.lines, [], []);
      FenceCloses(lines, i, fence, show);
    }
  }

  lemma {:induction false} InsideList(lines: seq<Line>, i: nat, bullets: seq<string>, show: Fence -> seq<Body>)
    requires i <= |lines| && bullets != []
    ensures
      var j := NextNonBullet(lines, i);
      Rest(lines, i, bullets, None, show)
        == [ListOf(bullets + ItemsOf(lines, i, j))] + Rest(lines, j, [], None, show)
    decreases |lines| - i
  {
    if i < |lines| && lines[i].kind.Bullet? {
      var item := [lines[i].kind.item];
      InsideList(lines, i + 1, bullets + item, show);
      Assoc(bullets, item, ItemsOf(lines, i + 1, NextNonBullet(lines, i)));
    } else {
      Assoc(bullets, [], []);
      ListEnds(lines, i, bullets, show);
    }
  }

  /** A line that is no bullet closes the list before it does anything else. */
  lemma ListEnds(lines: seq<Line>, i: nat, bullets: seq<string>, show: Fence -> seq<Body>)
    requires i <= |lines| && (i < |lines| ==> !lines[i].kind.Bullet?)
    ensures Rest(lines, i, bullets, None, show) == ListBody(bullets) + Rest(lines, i, [], None, show)
  {
    if i < |lines| && !lines[i].kind.FenceMark? {
      Assoc(ListBody(bullets), Single(lines[i]), Rest(lines, i + 1, [], None, show));
      Assoc(Single(lines[i]), [], []);
    }
  }

  lemma StructureAtMark(lines: seq<Line>, i: nat, show: Fence -> seq<Body>)
    requires i < |lines| && lines[i].kind.FenceMark?
    ensures
      var j := NextMark(lines, i + 1);
      Rest(lines, i, [], None, show)
        == show(Fence(lines[i].kind.tag, TextsOf(lines, i + 1, j))) + Rest(lines, j + 1, [], None, show)
  {
    InsideFence(lines, i + 1, Fence(lines[i].kind.tag, []), show);
    Assoc(TextsOf(lines, i + 1, NextMark(lines, i + 1)), [], []);
  }

  lemma StructureAtBullet(lines: seq<Line>, i: nat, show: Fence -> seq<Body>)
    requires i < |lines| && lines[i].kind.Bullet?
    ensures
      var j := NextNonBullet(lines, i);
      Rest(lines, i, [], None, show) == [ListOf(ItemsOf(lines, i, j))] + Rest(lines, j, [], None, show)
  {
    var item := [lines[i].kind.item];
    Assoc(item, [], []);
    Opens(lines, i, [], None, show);
    InsideList(lines, i + 1, item, show);
    ItemsCons(lines, i);
  }

  lemma Opens(lines: seq<Line>, i: nat, bullets: seq<string>, fence: Option<Fence>, show: Fence -> seq<Body>)
    requires i < |lines|
    ensures
      var turn := TurnOf(lines[i], bullets, fence, show);
      && Rest(lines, i, bullets, fence, show) == turn.pushed + Rest(lines, i + 1, turn.bullets, turn.fence, show)
      && (turn.pushed == [] ==>
            Rest(lines, i, bullets, fence, show) == Rest(lines, i + 1, turn.bullets, turn.fence, show))
  {
  }

  lemma ItemsCons(lines: seq<Line>, i: nat)
    requires i < |lines| && lines[i].kind.Bullet?
    ensures NextNonBullet(lines, i) == NextNonBullet(lines, i + 1)
    ensures ItemsOf(lines, i, NextNonBullet(lines, i))
         == [lines[i].kind.item] + ItemsOf(lines, i + 1, NextNonBullet(lines, i + 1))
  {
  }

  lemma StructureAtOther(lines: seq<Line>, i: nat, show: Fence -> seq<Body>)
    requires i < |lines| && !lines[i].kind.FenceMark? && !lines[i].kind.Bullet?
    ensures Rest(lines, i, [], None, show) == Single(lines[i]) + Rest(lines, i + 1, [], None, show)
  {
    Opens(lines, i, [], None, show);
    Assoc([], Single(lines[i]), []);
  }

  predicate Reads(lines: seq<Line>, i: nat, show: Fence -> seq<Body>) {
    Rest(lines, i, [], None, show) == Structure(lines, i, show)
  }

  lemma ReadsAtMark(lines: seq<Line>, i: nat, show: Fence -> seq<Body>)
    requires i < |lines| && lines[i].kind.FenceMark? && Reads(lines, NextMark(lines, i + 1) + 1, show)
    ensures Reads(lines, i, show)
  {
    StructureAtMark(lines, i, show);
  }

  lemma ReadsAtBullet(lines: seq<Line>, i: nat, show: Fence -> seq<Body>)
    requires i < |lines| && lines[i].kind.Bullet? && Reads(lines, NextNonBullet(lines, i), show)
    ensures Reads(lines, i, show)
  {
    StructureAtBullet(lines, i, show);
  }

  lemma ReadsAtOther(lines: seq<Line>, i: nat, show: Fence -> seq<Body>)
    requires i < |lines| && !lines[i].kind.FenceMark? && !lines[i].kind.Bullet? && Reads(lines, i + 1, show)
    ensures Reads(lines, i, show)
  {
    StructureAtOther(lines, i, show);
  }

  /** The line state machine reads exactly that structure. */
  lemma {:induction false} MachineIsStructure(lines: seq<Line>, i: nat, show: Fence -> seq<Body>)
    ensures Rest(lines, i, [], None, show) == Structure(lines, i, show)
    decreases |lines| - i
  {
    if i < |lines| {
      if lines[i].kind.FenceMark? {
        MachineIsStructure(lines, NextMark(lines, i + 1) + 1, show);
        ReadsAtMark(lines, i, show);
      } else if lines[i].kind.Bullet? {
        MachineIsStructure(lines, NextNonBullet(lines, i), show);
        ReadsAtBullet(lines, i, show);
      } else {
        MachineIsStructure(lines, i + 1, show);
        ReadsAtOther(lines, i, show);
      }
    }
  }

  // ---------------------------------------------------------------------------
  // Every line is accounted for

  /** One line's text in the blocks: an item of a list, a heading or a paragraph. */
  datatype Part = Item(text: string) | Title(text: string) | Words(text: string)

  /** What a line outside a fence says. */
  function Saying(line: Line): seq<Part> {
    match line.kind
    case Bullet(item) => [Item(item)]
    case Heading(title) => if title != "" then [Title(title)] else []
    case Paragraph => [Words(line.text)]
    case _ => []
  }

  /** What the lines outside fences say: a mark toggles between outside and inside. */
  function Said(lines: seq<Line>, i: nat, inFence: bool): seq<Part>
    decreases |lines| - i
  {
    if i >= |lines| then []
    else if lines[i].kind.FenceMark? then Said(lines, i + 1, !inFence)
    else (if inFence then [] else Saying(lines[i])) + Said(lines, i + 1, inFence)
  }

  function Items(bullets: seq<string>): seq<Part> {
    seq(|bullets|, i requires 0 <= i < |bullets| => Item(bullets[i]))
  }

  function PartsIn(body: Body): seq<Part> {
    match body
    case ListOf(items) => Items(items)
    case HeadingOf(title) => [Title(title)]
    case ParagraphOf(text) => [Words(text)]
    case CodeOf(_, _) => []
  }

  function AllParts(bodies: seq<Body>): seq<Part> {
    if bodies == [] then [] else PartsIn(bodies[0]) + AllParts(bodies[1..])
  }

  lemma {:induction false} AllPartsConcat(a: seq<Body>, b: seq<Body>)
    ensures AllParts(a + b) == AllParts(a) + AllParts(b)
  {
    if a == [] {
      assert a + b == b;
    } else {
      AllPartsConcat(a[1..], b);
      assert (a + b)[1..] == a[1..] + b;
      Assoc(PartsIn(a[0]), AllParts(a[1..]), AllParts(b));
    }
  }

  lemma ItemsSnoc(bullets: seq<string>, item: string)
    ensures Items(bullets + [item]) == Items(bullets) + [Item(item)] && Items([]) == []
  {
  }

  lemma PartsOfTurn(line: Line, bullets: seq<string>, fence: Option<Fence>, show: Fence -> seq<Body>)
    requires ShowsCode(show)
    requires fence.Some? ==> bullets == []
    ensures
      var turn := TurnOf(line, bullets, fence, show);
      && (turn.fence.Some? ==> turn.bullets == [])
      && (turn.fence.Some? <==> fence.Some? != line.kind.FenceMark?)
      && AllParts(turn.pushed) + Items(turn.bullets) == Items(bullets) + (if fence.Some? then [] else Saying(line))
  {
    PartsOfBodies(line, bullets, show);
    AllPartsConcat(ListBody(bullets), Single(line));
    if fence.Some? { NoPartsInFence(fence.value, show); }
    if line.kind.Bullet? { ItemsSnoc(bullets, line.kind.item); }
  }

  lemma PartsOfBodies(line: Line, bullets: seq<string>, show: Fence -> seq<Body>)
    ensures AllParts(ListBody(bullets)) == Items(bullets)
    ensures !line.kind.Bullet? ==> AllParts(Single(line)) == Saying(line)
  {
    var list := ListBody(bullets);
    if bullets != [] { assert list[1..] == []; }
    var single := Single(line);
    if single != [] { assert single[1..] == []; }
  }

  /** A closed fence becomes one code block or nothing. */
  ghost predicate ShowsCode(show: Fence -> seq<Body>) {
    forall f :: |show(f)| <= 1 && forall b <- show(f) :: b.CodeOf?
  }

  lemma NoPartsInFence(fence: Fence, show: Fence -> seq<Body>)
    requires ShowsCode(show)
    ensures AllParts(show(fence)) == []
  {
    var body := show(fence);
    if body != [] {
      assert body[0] in body && body[1..] == [];
      assert AllParts(body) == PartsIn(body[0]) + AllParts([]);
    }
  }

  /**
   Every line outside a fence that is not blank, nor a heading of nothing, appears in the
   blocks exactly once and in order; nothing inside a fence is read as prose.
   */
  lemma {:induction false} ProseConserved(lines: seq<Line>, i: nat, bullets: seq<string>, fence: Option<Fence>,
                                          show: Fence -> seq<Body>)
    requires ShowsCode(show) && (fence.Some? ==> bullets == [])
    ensures AllParts(Rest(lines, i, bullets, fence, show)) == Items(bullets) + Said(lines, i, fence.Some?)
    decreases |lines| - i
  {
    if i >= |lines| {
      ClosingParts(bullets, fence, show);
    } else {
      var turn := TurnOf(lines[i], bullets, fence, show);
      PartsOfTurn(lines[i], bullets, fence, show);
      ProseConserved(lines, i + 1, turn.bullets, turn.fence, show);
      AllPartsConcat(turn.pushed, Rest(lines, i + 1, turn.bullets, turn.fence, show));
      Assoc(AllParts(turn.pushed), Items(turn.bullets), Said(lines, i + 1, turn.fence.Some?));
      Assoc(Items(bullets), if fence.Some? then [] else Saying(lines[i]), Said(lines, i + 1, turn.fence.Some?));
      SaidStep(lines, i, fence.Some?);
    }
  }

  lemma SaidStep(lines: seq<Line>, i: nat, inFence: bool)
    requires i < |lines|
    ensures Said(lines, i, inFence)
         == (if inFence then [] else Saying(lines[i])) + Said(lines, i + 1, inFence != lines[i].kind.FenceMark?)
  {
  }

  lemma ClosingParts(bullets: seq<string>, fence: Option<Fence>, show: Fence -> seq<Body>)
    requires ShowsCode(show)
    ensures AllParts(Closing(bullets, fence, show)) == Items(bullets)
  {
    PartsOfBodies(Line("", BlankLine), bullets, show);
    if fence.Some? {
      NoPartsInFence(fence.value, show);
      AllPartsConcat(ListBody(bullets), show(fence.value));
    } else {
      assert Closing(bullets, fence, show) == ListBody(bullets);
    }
  }

  // ---------------------------------------------------------------------------
  // Fences

  /** The fences of the text in order, the last one perhaps never closed. */
  function Fences(lines: seq<Line>, i: nat, open: Option<Fence>): seq<Fence>
    decreases |lines| - i
  {
    if i >= |lines| then (if open.Some? then [open.value] else [])
    else if lines[i].kind.FenceMark? then
      if open.Some? then [open.value] + Fences(lines, i + 1, None)
      else Fences(lines, i + 1, Some(Fence(lines[i].kind.tag, [])))
    else if open.Some? then Fences(lines, i + 1, Some(Fence(open.value.tag, open.value.lines + [lines[i].text])))
    else Fences(lines, i + 1, None)
  }

  /** The lines inside fences, unmodified. */
  function Fenced(lines: seq<Line>, i: nat, inFence: bool): seq<string>
    decreases |lines| - i
  {
    if i >= |lines| then []
    else if lines[i].kind.FenceMark? then Fenced(lines, i + 1, !inFence)
    else (if inFence then [lines[i].text] else []) + Fenced(lines, i + 1, inFence)
  }

  function LinesOf(fences: seq<Fence>): seq<string> {
    if fences == [] then [] else fences[0].lines + LinesOf(fences[1..])
  }

  /** Together the fences hold exactly the fenced lines, each once and in order. */
  lemma {:induction false} FencesHoldFencedLines(lines: seq<Line>, i: nat, open: Option<Fence>)
    ensures LinesOf(Fences(lines, i, open))
         == (if open.Some? then open.value.lines else []) + Fenced(lines, i, open.Some?)
    decreases |lines| - i
  {
    if i >= |lines| {
      if open.Some? { assert [open.value][1..] == []; }
    } else if lines[i].kind.FenceMark? {
      if open.Some? {
        FencesHoldFencedLines(lines, i + 1, None);
        assert ([open.value] + Fences(lines, i + 1, None))[1..] == Fences(lines, i + 1, None);
      } else {
        FencesHoldFencedLines(lines, i + 1, Some(Fence(lines[i].kind.tag, [])));
      }
    } else if open.Some? {
      FencesHoldFencedLines(lines, i + 1, Some(Fence(open.value.tag, open.value.lines + [lines[i].text])));
    } else {
      FencesHoldFencedLines(lines, i + 1, None);
    }
  }

  function CodesIn(bodies: seq<Body>): seq<Body> {
    if bodies == [] then []
    else (if bodies[0].CodeOf? then [bodies[0]] else []) + CodesIn(bodies[1..])
  }

  /** The blocks of these fences: one each, but for an empty one and the carded statement. */
  function Printed(fences: seq<Fence>, show: Fence -> seq<Body>): seq<Body> {
    if fences == [] then [] else show(fences[0]) + Printed(fences[1..], show)
  }

  lemma {:induction false} CodesInConcat(a: seq<Body>, b: seq<Body>)
    ensures CodesIn(a + b) == CodesIn(a) + CodesIn(b)
  {
    if a == [] {
      assert a + b == b;
    } else {
      CodesInConcat(a[1..], b);
      assert (a + b)[1..] == a[1..] + b;
      Assoc(if a[0].CodeOf? then [a[0]] else [], CodesIn(a[1..]), CodesIn(b));
    }
  }

  lemma CodesOfFence(fence: Fence, show: Fence -> seq<Body>)
    requires ShowsCode(show)
    ensures CodesIn(show(fence)) == show(fence)
  {
    var body := show(fence);
    if body != [] {
      assert body[0] in body && body[1..] == [];
      assert AllParts(body) == PartsIn(body[0]) + AllParts([]);
    }
  }

  lemma NoCodeInProse(line: Line, bullets: seq<string>)
    ensures CodesIn(ListBody(bullets)) == [] && CodesIn(Single(line)) == []
    ensures CodesIn(ListBody(bullets) + Single(line)) == []
  {
    var list, single := ListBody(bullets), Single(line);
    if list != [] { assert list[1..] == []; }
    if single != [] { assert single[1..] == []; }
    CodesInConcat(list, single);
  }

  /**
   The code blocks are exactly the fences of the text, in order, each holding its lines joined
   unmodified; an unclosed fence runs to the end.
   */
  lemma {:induction false} FencesConserved(lines: seq<Line>, i: nat, bullets: seq<string>, fence: Option<Fence>,
                                           show: Fence -> seq<Body>)
    requires ShowsCode(show)
    ensures CodesIn(Rest(lines, i, bullets, fence, show)) == Printed(Fences(lines, i, fence), show)
    decreases |lines| - i
  {
    if i >= |lines| {
      NoCodeInProse(Line("", BlankLine), bullets);
      if fence.Some? {
        CodesOfFence(fence.value, show);
        CodesInConcat(ListBody(bullets), show(fence.value));
        PrintedOne(fence.value, show);
      } else {
        assert Closing(bullets, fence, show) == ListBody(bullets);
      }
    } else {
      var turn := TurnOf(lines[i], bullets, fence, show);
      FencesConserved(lines, i + 1, turn.bullets, turn.fence, show);
      CodesInConcat(turn.pushed, Rest(lines, i + 1, turn.bullets, turn.fence, show));
      NoCodeInProse(lines[i], bullets);
      if fence.Some? && lines[i].kind.FenceMark? {
        CodesOfFence(fence.value, show);
        PrintedCons(fence.value, Fences(lines, i + 1, None), show);
      }
    }
  }

  lemma PrintedCons(fence: Fence, fences: seq<Fence>, show: Fence -> seq<Body>)
    ensures Printed([fence] + fences, show) == show(fence) + Printed(fences, show)
  {
    assert ([fence] + fences)[1..] == fences;
  }

  lemma PrintedOne(fence: Fence, show: Fence -> seq<Body>)
    ensures Printed([fence], show) == show(fence)
  {
    PrintedCons(fence, [], show);
    assert [fence] + [] == [fence];
  }

  lemma PrinterShowsCode(carded: Option<string>)
    ensures ShowsCode(Printer(carded))
  {
  }

  /**
   The whole of `renderProse`, for every text: its blocks are the structure of the lines, they
   say every line outside the fences once and in order, and their code is the fences'.
   */
  lemma ProseIsConserved(text: string, carded: Option<string>)
    ensures
      var lines, bodies := Read(SplitOn(text, '\n')), Prosed(text, carded);
      && bodies == Structure(lines, 0, Printer(carded))
      && AllParts(bodies) == Said(lines, 0, false)
      && CodesIn(bodies) == Printed(Fences(lines, 0, None), Printer(carded))
      && LinesOf(Fences(lines, 0, None)) == Fenced(lines, 0, false)
  {
    var lines := Read(SplitOn(text, '\n'));
    PrinterShowsCode(carded);
    MachineIsStructure(lines, 0, Printer(carded));
    ProseConserved(lines, 0, [], None, Printer(carded));
    ItemsSnoc([], "");
    FencesConserved(lines, 0, [], None, Printer(carded));
    FencesHoldFencedLines(lines, 0, None);
    Assoc(Said(lines, 0, false), [], []);
    Assoc(Fenced(lines, 0, false), [], []);
  }
}
