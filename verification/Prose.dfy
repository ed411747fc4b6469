/** Blocks of model prose (`renderProse`): a line state machine with fences and lists. */
module Prose {
  import opened Options
  import opened Strings
  import opened RichText

  // ---------------------------------------------------------------------------
  // What each line is

  datatype Kind =
    | FenceMark(tag: Option<string>)
    | Bullet(item: string)
    | Heading(title: string)
    | BlankLine
    | Paragraph

  /** `(.*)$` over what is left of a line. */
  predicate OneLine(s: string) { forall c <- s :: !IsTerminator(c) }

  /** `/^\s*```([^`]*)$/`: what follows the three backticks. */
  function FenceInfo(line: string): Option<string> {
    match Strip(TrimStart(line), "```")
    case None => None
    case Some(info) => if forall c <- info :: NotBacktick(c) then Some(info) else None
  }

  /** `\s+(.*)$` */
  function AfterSpace(s: string): Option<string> {
    if s != "" && IsSpace(s[0]) && OneLine(TrimStart(s)) then Some(TrimStart(s)) else None
  }

  /** `/^\s*[-*]\s+(.*)$/` */
  function BulletText(line: string): Option<string> {
    var t := TrimStart(line);
    if t != "" && (t[0] == '-' || t[0] == '*') then AfterSpace(t[1..]) else None
  }

  predicate IsHash(c: char) { c == '#' }

  /** The heading pattern, on the line without its leading space. */
  function HeadingText(line: string): Option<string> {
    TitleText(TrimStart(line))
  }

  /** `/^(#{1,6})\s+(.*)$/` */
  function TitleText(t: string): Option<string> {
    var hashes := RunLength(t, IsHash);
    if 1 <= hashes <= 6 then AfterSpace(t[hashes..]) else None
  }

  function Classify(line: string): Kind {
    match FenceInfo(line)
    case Some(info) => FenceMark(if Trim(info) == "" then None else Some(Lower(Trim(info))))
    case None =>
      match BulletText(line)
      case Some(item) => Bullet(item)
      case None =>
        match HeadingText(line)
        case Some(title) => Heading(Trim(title))
        case None => if Trim(line) == "" then BlankLine else Paragraph
  }

  datatype Line = Line(text: string, kind: Kind)

  function Read(lines: seq<string>): seq<Line> {
    seq(|lines|, i requires 0 <= i < |lines| => Line(lines[i], Classify(lines[i])))
  }

  // ---------------------------------------------------------------------------
  // The state machine

  /** A block without its key. */
  datatype Body =
    | ListOf(items: seq<string>)
    | CodeOf(code: string, tag: Option<string>)
    | HeadingOf(title: string)
    | ParagraphOf(text: string)

  datatype Block = Block(key: nat, body: Body)

  datatype Fence = Fence(tag: Option<string>, lines: seq<string>)

  function ListBody(bullets: seq<string>): seq<Body> {
    if bullets == [] then [] else [ListOf(bullets)]
  }

  /** A fence with nothing in it, and the one the caller shows already, are not printed. */
  function FenceBody(fence: Fence, carded: Option<string>): seq<Body> {
    var code := Join(fence.lines, "\n");
    if Trim(code) != "" && Some(Trim(code)) != carded then [CodeOf(code, fence.tag)] else []
  }

  /** What a closed fence becomes. */
  function Printer(carded: Option<string>): Fence -> seq<Body> {
    f => FenceBody(f, carded)
  }

  /** What is pushed for a line outside a fence that is no bullet. */
  function Single(line: Line): seq<Body> {
    match line.kind
    case Heading(title) => if title != "" then [HeadingOf(title)] else []
    case Paragraph => [ParagraphOf(line.text)]
    case _ => []
  }

  /** What one line does: the blocks it pushes, and the bullets and fence it leaves. */
  datatype Turn = Turn(pushed: seq<Body>, bullets: seq<string>, fence: Option<Fence>)

  function TurnOf(line: Line, bullets: seq<string>, fence: Option<Fence>, show: Fence -> seq<Body>): Turn {
    if fence.Some? then
      if line.kind.FenceMark? then Turn(show(fence.value), bullets, None)
      else Turn([], bullets, Some(Fence(fence.value.tag, fence.value.lines + [line.text])))
    else
      match line.kind
      case FenceMark(tag) => Turn(ListBody(bullets), [], Some(Fence(tag, [])))
      case Bullet(item) => Turn([], bullets + [item], None)
      case _ => Turn(ListBody(bullets) + Single(line), [], None)
  }

  function Closing(bullets: seq<string>, fence: Option<Fence>, show: Fence -> seq<Body>): seq<Body> {
    ListBody(bullets) + if fence.Some? then show(fence.value) else []
  }

  /** The blocks still to come from line `i` on, with these bullets and this fence collected. */
  function Rest(lines: seq<Line>, i: nat, bullets: seq<string>, fence: Option<Fence>, show: Fence -> seq<Body>)
    : seq<Body>
    decreases |lines| - i
  {
    if i >= |lines| then Closing(bullets, fence, show)
    else
      var turn := TurnOf(lines[i], bullets, fence, show);
      turn.pushed + Rest(lines, i + 1, turn.bullets, turn.fence, show)
  }

  function Trimmed(statement: Option<string>): Option<string> {
    if statement.Some? then Some(Trim(statement.value)) else None
  }

  function Keyed(bodies: seq<Body>): seq<Block> {
    seq(|bodies|, i requires 0 <= i < |bodies| => Block(i, bodies[i]))
  }

  function Prosed(text: string, carded: Option<string>): seq<Body> {
    Rest(Read(SplitOn(text, '\n')), 0, [], None, Printer(carded))
  }

  lemma RestStep(before: seq<Body>, lines: seq<Line>, i: nat, bullets: seq<string>, fence: Option<Fence>,
                 show: Fence -> seq<Body>)
    requires i < |lines|
    ensures
      var turn := TurnOf(lines[i], bullets, fence, show);
      before + Rest(lines, i, bullets, fence, show)
        == (before + turn.pushed) + Rest(lines, i + 1, turn.bullets, turn.fence, show)
  {
  }

  class Renderer {
    var blocks: seq<Block>
    var bullets: seq<string>
    var key: nat
    var fence: Option<Fence>
    const carded: Option<string>

    /** The blocks without their keys. */
    ghost var bodies: seq<Body>

    ghost predicate Valid()
      reads this
    {
      && key == |blocks|
      && blocks == Keyed(bodies)
      && (fence.Some? ==> bullets == [])
    }

    constructor (cardedStatement: Option<string>)
      ensures Valid() && fresh(this) && bodies == [] && bullets == [] && fence == None
      ensures carded == Trimmed(cardedStatement)
    {
      blocks, bodies, bullets, key, fence := [], [], [], 0, None;
      carded := Trimmed(cardedStatement);
    }

    method Push(body: Body)
      requires Valid()
      modifies this`blocks, this`bodies, this`key
      ensures Valid() && bodies == old(bodies) + [body]
    {
      blocks, bodies := blocks + [Block(key, body)], bodies + [body];
      key := key + 1;
    }

    method CloseList()
      requires Valid()
      modifies this`blocks, this`bodies, this`key, this`bullets
      ensures Valid() && bullets == [] && bodies == old(bodies) + ListBody(old(bullets))
    {
      if bullets == [] { return; }
      Push(ListOf(bullets));
      bullets := [];
    }

    method CloseFence()
      requires Valid()
      modifies this`blocks, this`bodies, this`key, this`fence
      ensures Valid() && fence == None
      ensures bodies == old(bodies) + if old(fence).Some? then FenceBody(old(fence).value, carded) else []
    {
      if fence.None? { return; }
      var code := Join(fence.value.lines, "\n");
      var statement := Trim(code);
      if statement != "" && Some(statement) != carded {
        Push(CodeOf(code, fence.value.tag));
      }
      fence := None;
    }

    /** What is left when the lines are over. */
    method Finish()
      requires Valid()
      modifies this
      ensures Valid() && bodies == old(bodies) + Closing(old(bullets), old(fence), Printer(carded))
    {
      CloseList();
      CloseFence();
    }

    /** One turn of the loop. */
    method ReadLine(line: Line)
      requires Valid()
      modifies this
      ensures Valid()
      ensures
        var turn := TurnOf(line, old(bullets), old(fence), Printer(carded));
        bodies == old(bodies) + turn.pushed && bullets == turn.bullets && fence == turn.fence
    {
      var kind := line.kind;
      if fence.Some? {
        if kind.FenceMark? {
          CloseFence();
        } else {
          fence := Some(Fence(fence.value.tag, fence.value.lines + [line.text]));
        }
        return;
      }
      if kind.FenceMark? {
        CloseList();
        fence := Some(Fence(kind.tag, []));
        return;
      }
      if kind.Bullet? {
        bullets := bullets + [kind.item];
        return;
      }
      CloseList();
      if kind.Heading? {
        if kind.title != "" {
          Push(HeadingOf(kind.title));
        }
        return;
      }
      if kind.BlankLine? { return; }
      Push(ParagraphOf(line.text));
    }
  }

  /** The loop over the lines, and what closes after it. */
  method RenderLines(lines: seq<Line>, cardedStatement: Option<string>) returns (blocks: seq<Block>)
    ensures blocks == Keyed(Rest(lines, 0, [], None, Printer(Trimmed(cardedStatement))))
  {
    var r := new Renderer(cardedStatement);
    for i := 0 to |lines|
      invariant r.Valid()
      invariant r.bodies + Rest(lines, i, r.bullets, r.fence, Printer(r.carded)) == Rest(lines, 0, [], None, Printer(r.carded))
    {
      RestStep(r.bodies, lines, i, r.bullets, r.fence, Printer(r.carded));
      r.ReadLine(lines[i]);
    }
    r.Finish();
    blocks := r.blocks;
  }

  /** `renderProse`: the blocks in order, each keyed by its place. */
  method RenderProse(text: string, cardedStatement: Option<string>) returns (blocks: seq<Block>)
    ensures blocks == Keyed(Prosed(text, Trimmed(cardedStatement)))
  {
    blocks := RenderLines(Read(SplitOn(text, '\n')), cardedStatement);
  }
}
