/** The inline markup of model prose (`renderInline`): bold and code, and nothing lost. */
module RichText {
  import opened Options
  import opened Sequences
  import opened Strings

  /** What `.` does not match. */
  predicate IsTerminator(c: char) {
    c == '\n' || c == '\r' || c as int == 0x2028 || c as int == 0x2029
  }

  predicate NotBacktick(c: char) { c != '`' }

  datatype Node =
    | Plain(text: string)
    | Strong(text: string, key: nat)
    | Code(text: string, key: nat)

  datatype Match = Match(index: nat, end: nat, content: string, strong: bool)

  // ---------------------------------------------------------------------------
  // The pattern: bold, else code, leftmost first

  predicate StarsAt(text: string, p: nat) {
    p + 1 < |text| && text[p] == '*' && text[p + 1] == '*'
  }

  /** The first `**` from `q` on, with no line terminator before it. */
  function FindClose(text: string, q: nat): (r: Option<nat>)
    ensures r.Some? ==> q <= r.value && StarsAt(text, r.value)
    ensures r.Some? ==> forall k | q <= k < r.value :: !StarsAt(text, k) && !IsTerminator(text[k])
    decreases |text| - q
  {
    if q + 1 >= |text| then None
    else if StarsAt(text, q) then Some(q)
    else if IsTerminator(text[q]) then None
    else FindClose(text, q + 1)
  }

  /** The match that starts at `p`, if one does. */
  function MatchAt(text: string, p: nat): (r: Option<Match>)
    requires p < |text|
    ensures r.Some? ==> r.value.index == p < r.value.end <= |text|
  {
    if StarsAt(text, p) && FindClose(text, p + 2).Some? then Some(StrongAt(text, p))
    else if text[p] == '`' then
      var k := RunLength(text[p + 1..], NotBacktick);
      if k > 0 && p + 1 + k < |text| then Some(CodeAt(text, p)) else None
    else None
  }

  function StrongAt(text: string, p: nat): Match
    requires p < |text| && StarsAt(text, p) && FindClose(text, p + 2).Some?
  {
    var q := FindClose(text, p + 2).value;
    Match(p, q + 2, text[p + 2..q], true)
  }

  function CodeAt(text: string, p: nat): Match
    requires p < |text| && p + 1 + RunLength(text[p + 1..], NotBacktick) < |text|
  {
    var k := RunLength(text[p + 1..], NotBacktick);
    Match(p, p + 2 + k, text[p + 1..p + 1 + k], false)
  }

  /** `pattern.exec`, from `lastIndex` on. */
  function NextMatch(text: string, p: nat): (r: Option<Match>)
    ensures r.Some? ==> p <= r.value.index < r.value.end <= |text| && MatchAt(text, r.value.index) == r
    ensures r.Some? ==> forall k | p <= k < r.value.index :: MatchAt(text, k) == None
    ensures r.None? ==> forall k | p <= k < |text| :: MatchAt(text, k) == None
    decreases |text| - p
  {
    if p >= |text| then None
    else if MatchAt(text, p).Some? then MatchAt(text, p)
    else NextMatch(text, p + 1)
  }

  function NodeOf(m: Match, key: nat): Node {
    if m.strong then Strong(m.content, key) else Code(m.content, key)
  }

  function PlainNode(text: string): seq<Node> {
    if text == "" then [] else [Plain(text)]
  }

  function RenderFrom(text: string, cursor: nat, key: nat): seq<Node>
    requires cursor <= |text|
    decreases |text| - cursor
  {
    match NextMatch(text, cursor)
    case None => PlainNode(text[cursor..])
    case Some(m) => PlainNode(text[cursor..m.index]) + ([NodeOf(m, key)] + RenderFrom(text, m.end, key + 1))
  }

  /** `renderInline` */
  method RenderInline(text: string) returns (nodes: seq<Node>)
    ensures nodes == RenderFrom(text, 0, 0)
  {
    nodes := [];
    var cursor, key := 0, 0;
    var found := NextMatch(text, 0);
    while found.Some?
      invariant cursor <= |text| && found == NextMatch(text, cursor)
      invariant nodes + RenderFrom(text, cursor, key) == RenderFrom(text, 0, 0)
      decreases |text| - cursor
    {
      var m := found.value;
      Regroup(nodes, PlainNode(text[cursor..m.index]), [NodeOf(m, key)], RenderFrom(text, m.end, key + 1));
      if m.index > cursor {
        nodes := nodes + [Plain(text[cursor..m.index])];
      }
      nodes := nodes + [NodeOf(m, key)];
      key := key + 1;
      cursor := m.end;
      found := NextMatch(text, cursor);
    }
    if cursor < |text| {
      nodes := nodes + [Plain(text[cursor..])];
    }
  }

  // ---------------------------------------------------------------------------
  // Nothing is lost

  function UnparseNode(n: Node): string {
    match n
    case Plain(text) => text
    case Strong(text, _) => "**" + text + "**"
    case Code(text, _) => "`" + text + "`"
  }

  function Pieces(nodes: seq<Node>): seq<string> {
    seq(|nodes|, i requires 0 <= i < |nodes| => UnparseNode(nodes[i]))
  }

  function Unparse(nodes: seq<Node>): string {
    Flat(Pieces(nodes))
  }

  lemma UnparseConcat(a: seq<Node>, b: seq<Node>)
    ensures Unparse(a + b) == Unparse(a) + Unparse(b)
  {
    FlatConcat(Pieces(a), Pieces(b));
    assert Pieces(a + b) == Pieces(a) + Pieces(b);
  }

  lemma UnparseOne(n: Node)
    ensures Unparse([n]) == UnparseNode(n)
  {
    var piece := UnparseNode(n);
    assert Pieces([n]) == [piece] && [piece][1..] == [];
    assert Flat([piece]) == piece + "";
  }

  lemma UnparsePlain(text: string)
    ensures Unparse(PlainNode(text)) == text
  {
    if text == "" {
      assert Pieces(PlainNode(text)) == [];
    } else {
      UnparseOne(Plain(text));
      assert PlainNode(text) == [Plain(text)];
    }
  }

  lemma UnparseStrong(text: string, p: nat, key: nat)
    requires p < |text| && StarsAt(text, p) && FindClose(text, p + 2).Some?
    ensures UnparseNode(NodeOf(StrongAt(text, p), key)) == text[p..StrongAt(text, p).end]
  {
    var q := FindClose(text, p + 2).value;
    StarsText(text, p);
    StarsText(text, q);
    ThreeParts(text, p, p + 2, q, q + 2);
  }

  lemma StarsText(text: string, p: nat)
    requires StarsAt(text, p)
    ensures text[p..p + 2] == "**"
  {
  }

  lemma ThreeParts(text: string, a: nat, b: nat, c: nat, d: nat)
    requires a <= b <= c <= d <= |text|
    ensures text[a..b] + text[b..c] + text[c..d] == text[a..d]
  {
  }

  lemma Enclosed(text: string, p: nat, k: nat)
    requires p + 2 + k <= |text| && text[p] == '`' && text[p + 1 + k] == '`'
    ensures "`" + text[p + 1..p + 1 + k] + "`" == text[p..p + 2 + k]
  {
    assert text[p..p + 1] == "`" && text[p + 1 + k..p + 2 + k] == "`";
    ThreeParts(text, p, p + 1, p + 1 + k, p + 2 + k);
  }

  lemma UnparseCode(text: string, p: nat, key: nat)
    requires p < |text| && text[p] == '`'
    requires p + 1 + RunLength(text[p + 1..], NotBacktick) < |text|
    ensures UnparseNode(NodeOf(CodeAt(text, p), key)) == text[p..CodeAt(text, p).end]
  {
    var k := RunLength(text[p + 1..], NotBacktick);
    assert text[p + 1..][k] == text[p + 1 + k];
    Enclosed(text, p, k);
  }

  lemma UnparseMatch(text: string, p: nat, key: nat)
    requires p < |text| && MatchAt(text, p).Some?
    ensures UnparseNode(NodeOf(MatchAt(text, p).value, key)) == text[p..MatchAt(text, p).value.end]
  {
    if StarsAt(text, p) && FindClose(text, p + 2).Some? {
      UnparseStrong(text, p, key);
    } else {
      UnparseCode(text, p, key);
    }
  }

  /**
   Putting the markers back around the bold and code nodes and concatenating every node gives
   the text from the cursor on exactly: for a whole line, the line.
   */
  lemma {:induction false} InlineLosesNothing(text: string, cursor: nat, key: nat)
    requires cursor <= |text|
    ensures Unparse(RenderFrom(text, cursor, key)) == text[cursor..]
    decreases |text| - cursor
  {
    match NextMatch(text, cursor)
    case None => UnparsePlain(text[cursor..]);
    case Some(m) =>
      var plain, node, rest := PlainNode(text[cursor..m.index]), NodeOf(m, key), RenderFrom(text, m.end, key + 1);
      InlineLosesNothing(text, m.end, key + 1);
      UnparsePlain(text[cursor..m.index]);
      UnparseMatch(text, m.index, key);
      UnparseOne(node);
      UnparseConcat([node], rest);
      UnparseConcat(plain, [node] + rest);
      Slices(text, cursor, m.index, m.end);
  }

  lemma Slices(text: string, a: nat, b: nat, c: nat)
    requires a <= b <= c <= |text|
    ensures text[a..] == text[a..b] + (text[b..c] + text[c..])
  {
  }

  // ---------------------------------------------------------------------------
  // Plain nodes hold no markup

  lemma {:induction false} CloseInPart(text: string, a: nat, b: nat, q: nat)
    requires a <= b <= |text| && FindClose(text[a..b], q).Some?
    ensures FindClose(text, a + q) == Some(a + FindClose(text[a..b], q).value)
    decreases b - a - q
  {
    var part := text[a..b];
    if !StarsAt(part, q) {
      CloseInPart(text, a, b, q + 1);
    }
  }

  /** A run that ends inside a part of the text ends there in the text. */
  lemma RunInPart(text: string, a: nat, b: nat)
    requires a <= b <= |text| && RunLength(text[a..b], NotBacktick) < b - a
    ensures RunLength(text[a..], NotBacktick) == RunLength(text[a..b], NotBacktick)
  {
    var k := RunLength(text[a..b], NotBacktick);
    var word, rest := text[a..b][..k], text[a..][k..];
    assert rest[0] == text[a..b][k];
    RunLengthOf(word, rest, NotBacktick);
    assert text[a..] == word + rest;
  }

  /** A match inside a part of the text is a match of the text. */
  lemma MatchInPart(text: string, a: nat, b: nat, p: nat)
    requires a <= b <= |text| && p < b - a && MatchAt(text[a..b], p).Some?
    ensures MatchAt(text, a + p).Some?
  {
    var part := text[a..b];
    if StarsAt(part, p) && FindClose(part, p + 2).Some? {
      CloseInPart(text, a, b, p + 2);
    } else {
      var k := RunLength(part[p + 1..], NotBacktick);
      assert p + 1 + k < |part|;
      assert part[p + 1..] == text[a + p + 1..b];
      RunInPart(text, a + p + 1, b);
    }
  }

  predicate NoMarkup(text: string) { NextMatch(text, 0) == None }

  lemma PartHasNoMarkup(text: string, a: nat, b: nat)
    requires a <= b <= |text| && forall k | a <= k < b :: MatchAt(text, k) == None
    ensures NoMarkup(text[a..b])
  {
    forall p | 0 <= p < b - a
      ensures MatchAt(text[a..b], p) == None
    {
      assert MatchAt(text, a + p) == None;
      if MatchAt(text[a..b], p).Some? { MatchInPart(text, a, b, p); }
    }
  }

  /** The text of a bold node is on one line and holds no `**`; that of a code node no backtick. */
  predicate WellFormedNode(n: Node) {
    match n
    case Plain(text) => text != "" && NoMarkup(text)
    case Strong(text, _) => forall k | 0 <= k < |text| :: !StarsAt(text, k) && !IsTerminator(text[k])
    case Code(text, _) => text != "" && forall k | 0 <= k < |text| :: text[k] != '`'
  }

  lemma MatchWellFormed(text: string, p: nat, key: nat)
    requires p < |text| && MatchAt(text, p).Some?
    ensures WellFormedNode(NodeOf(MatchAt(text, p).value, key))
  {
    var m := MatchAt(text, p).value;
    if m.strong {
      var q := FindClose(text, p + 2).value;
      forall k | 0 <= k < |m.content|
        ensures !StarsAt(m.content, k) && !IsTerminator(m.content[k])
      {
        assert m.content[k] == text[p + 2 + k];
        assert !StarsAt(text, p + 2 + k);
      }
    } else {
      var rest := text[p + 1..];
      assert forall k | 0 <= k < |m.content| :: m.content[k] == rest[k];
    }
  }

  /** The keys of the markup nodes, in order. */
  function Keys(nodes: seq<Node>): seq<nat> {
    if nodes == [] then []
    else (if nodes[0].Plain? then [] else [nodes[0].key]) + Keys(nodes[1..])
  }

  lemma KeysOfPlain(text: string, nodes: seq<Node>)
    ensures Keys(PlainNode(text) + nodes) == Keys(nodes)
  {
    if text == "" {
      assert PlainNode(text) + nodes == nodes;
    } else {
      assert (PlainNode(text) + nodes)[1..] == nodes;
    }
  }

  /** No plain node is empty or contains a further match, and markup holds no marker of its own. */
  lemma {:induction false} InlineWellFormed(text: string, cursor: nat, key: nat)
    requires cursor <= |text|
    ensures forall n <- RenderFrom(text, cursor, key) :: WellFormedNode(n)
    decreases |text| - cursor
  {
    match NextMatch(text, cursor)
    case None =>
      PartHasNoMarkup(text, cursor, |text|);
      assert text[cursor..|text|] == text[cursor..];
    case Some(m) =>
      InlineWellFormed(text, m.end, key + 1);
      PartHasNoMarkup(text, cursor, m.index);
      MatchWellFormed(text, m.index, key);
  }

  /** The markup nodes are keyed from `key` on, one after another. */
  lemma {:induction false} InlineKeys(text: string, cursor: nat, key: nat)
    requires cursor <= |text|
    ensures forall i | 0 <= i < |Keys(RenderFrom(text, cursor, key))| :: Keys(RenderFrom(text, cursor, key))[i] == key + i
    decreases |text| - cursor
  {
    match NextMatch(text, cursor)
    case None =>
      KeysOfPlain(text[cursor..], []);
      assert PlainNode(text[cursor..]) + [] == PlainNode(text[cursor..]);
    case Some(m) =>
      var node, rest := NodeOf(m, key), RenderFrom(text, m.end, key + 1);
      InlineKeys(text, m.end, key + 1);
      KeysOfPlain(text[cursor..m.index], [node] + rest);
      assert ([node] + rest)[1..] == rest;
      assert Keys([node] + rest) == [key] + Keys(rest);
  }

  predicate Apart(nodes: seq<Node>) {
    forall i | 0 <= i < |nodes| - 1 :: !(nodes[i].Plain? && nodes[i + 1].Plain?)
  }

  lemma ApartCons(plain: seq<Node>, node: Node, rest: seq<Node>)
    requires |plain| <= 1 && !node.Plain? && Apart(rest)
    ensures Apart(plain + ([node] + rest))
  {
    var nodes := plain + ([node] + rest);
    forall i | 0 <= i < |nodes| - 1
      ensures !(nodes[i].Plain? && nodes[i + 1].Plain?)
    {
      if i > |plain| {
        assert nodes[i] == rest[i - |plain| - 1] && nodes[i + 1] == rest[i - |plain|];
      } else {
        assert nodes[|plain|] == node;
      }
    }
  }

  /** No two plain nodes are neighbours: text without markup stays in one piece. */
  lemma {:induction false} PlainNodesApart(text: string, cursor: nat, key: nat)
    requires cursor <= |text|
    ensures Apart(RenderFrom(text, cursor, key))
    decreases |text| - cursor
  {
    match NextMatch(text, cursor)
    case None =>
    case Some(m) =>
      PlainNodesApart(text, m.end, key + 1);
      ApartCons(PlainNode(text[cursor..m.index]), NodeOf(m, key), RenderFrom(text, m.end, key + 1));
  }

  // ---------------------------------------------------------------------------
  // Markup by its characters

  /** Two stars at `p`, two at `q`, and between them neither two more nor the end of a line. */
  predicate StrongSpan(text: string, p: nat, q: nat) {
    && p + 2 <= q < |text| - 1
    && text[p] == '*' && text[p + 1] == '*' && text[q] == '*' && text[q + 1] == '*'
    && (forall k | p + 2 <= k < q :: !(text[k] == '*' && text[k + 1] == '*'))
    && (forall k | p + 2 <= k < q :: text[k] != '\n' && text[k] != '\r' && text[k] as int != 0x2028 && text[k] as int != 0x2029)
  }

  /** A backtick at `p`, the next one at `q`, and something between them. */
  predicate CodeSpan(text: string, p: nat, q: nat) {
    p + 1 < q < |text| && text[p] == '`' && text[q] == '`' && forall k | p < k < q :: text[k] != '`'
  }

  ghost predicate SpanStarts(text: string, p: nat) {
    exists q: nat :: StrongSpan(text, p, q) || CodeSpan(text, p, q)
  }

  lemma {:induction false} CloseIff(text: string, p: nat, q: nat)
    requires p <= q && StarsAt(text, q) && forall k | p <= k < q :: !StarsAt(text, k) && !IsTerminator(text[k])
    ensures FindClose(text, p) == Some(q)
    decreases q - p
  {
    if p < q {
      CloseIff(text, p + 1, q);
    }
  }

  lemma StrongIff(text: string, p: nat, q: nat)
    ensures StrongSpan(text, p, q) <==> StarsAt(text, p) && FindClose(text, p + 2) == Some(q)
  {
    if StrongSpan(text, p, q) {
      CloseIff(text, p + 2, q);
    }
  }

  lemma CodeIff(text: string, p: nat, q: nat)
    ensures CodeSpan(text, p, q) <==>
      p < |text| && text[p] == '`' && p + 1 < q < |text| && RunLength(text[p + 1..], NotBacktick) == q - p - 1
  {
    if CodeSpan(text, p, q) {
      var word, rest := text[p + 1..q], text[q..];
      RunLengthOf(word, rest, NotBacktick);
      assert text[p + 1..] == word + rest;
    } else if p < |text| && text[p] == '`' && p + 1 < q < |text| && RunLength(text[p + 1..], NotBacktick) == q - p - 1 {
      var rest := text[p + 1..];
      assert forall k | p < k <= q :: text[k] == rest[k - p - 1];
    }
  }

  lemma MatchIsSpan(text: string, p: nat)
    requires p < |text| && MatchAt(text, p).Some?
    ensures SpanStarts(text, p)
  {
    var m := MatchAt(text, p).value;
    if m.strong {
      StrongIff(text, p, m.end - 2);
      assert StrongSpan(text, p, m.end - 2);
    } else {
      CodeIff(text, p, m.end - 1);
      assert CodeSpan(text, p, m.end - 1);
    }
  }

  /** A match starts exactly where a span does, and is that span: bold its text, code its text. */
  lemma MatchIff(text: string, p: nat)
    requires p < |text|
    ensures MatchAt(text, p).Some? <==> SpanStarts(text, p)
    ensures forall q: nat | StrongSpan(text, p, q) :: MatchAt(text, p) == Some(Match(p, q + 2, text[p + 2..q], true))
    ensures forall q: nat | CodeSpan(text, p, q) :: MatchAt(text, p) == Some(Match(p, q + 1, text[p + 1..q], false))
  {
    forall q: nat | StrongSpan(text, p, q) ensures MatchAt(text, p) == Some(Match(p, q + 2, text[p + 2..q], true)) {
      StrongIff(text, p, q);
    }
    forall q: nat | CodeSpan(text, p, q) ensures MatchAt(text, p) == Some(Match(p, q + 1, text[p + 1..q], false)) {
      CodeIff(text, p, q);
    }
    if MatchAt(text, p).Some? {
      MatchIsSpan(text, p);
    }
  }

  /**
   Rendering by the characters alone: up to the first span the text is plain, the span is one node
   of its kind with its text, and rendering goes on behind it; without a span all of it is plain.
   */
  lemma RendersFirstSpan(text: string, cursor: nat, key: nat, p: nat, q: nat)
    requires cursor <= p < |text| && forall k | cursor <= k < p :: !SpanStarts(text, k)
    ensures StrongSpan(text, p, q) ==>
      RenderFrom(text, cursor, key)
        == PlainNode(text[cursor..p]) + ([Strong(text[p + 2..q], key)] + RenderFrom(text, q + 2, key + 1))
    ensures CodeSpan(text, p, q) ==>
      RenderFrom(text, cursor, key)
        == PlainNode(text[cursor..p]) + ([Code(text[p + 1..q], key)] + RenderFrom(text, q + 1, key + 1))
  {
    if StrongSpan(text, p, q) || CodeSpan(text, p, q) {
      FirstMatchIs(text, cursor, p);
      MatchIff(text, p);
    }
  }

  lemma FirstMatchIs(text: string, cursor: nat, p: nat)
    requires cursor <= p < |text| && (forall k | cursor <= k < p :: !SpanStarts(text, k)) && SpanStarts(text, p)
    ensures NextMatch(text, cursor) == MatchAt(text, p)
  {
    forall k | cursor <= k <= p ensures MatchAt(text, k).Some? <==> SpanStarts(text, k) { MatchIff(text, k); }
  }

  lemma RendersPlain(text: string, cursor: nat, key: nat)
    requires cursor <= |text|
    ensures (forall k | cursor <= k < |text| :: !SpanStarts(text, k)) <==>
            RenderFrom(text, cursor, key) == PlainNode(text[cursor..])
  {
    forall k | cursor <= k < |text| ensures MatchAt(text, k).Some? <==> SpanStarts(text, k) { MatchIff(text, k); }
    if NextMatch(text, cursor).Some? {
      var m := NextMatch(text, cursor).value;
      var nodes := RenderFrom(text, cursor, key);
      assert nodes[|PlainNode(text[cursor..m.index])|] == NodeOf(m, key);
      assert !NodeOf(m, key).Plain?;
    }
  }

  /** So plain text holds no markup exactly where no span starts in it. */
  lemma NoMarkupIff(text: string)
    ensures NoMarkup(text) <==> forall p: nat :: !SpanStarts(text, p)
  {
    forall k | 0 <= k < |text| ensures MatchAt(text, k).Some? <==> SpanStarts(text, k) { MatchIff(text, k); }
    assert forall p: nat | p >= |text| :: !SpanStarts(text, p);
  }
}
