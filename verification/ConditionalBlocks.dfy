/**
 * Provider-conditional blocks of an agent file: the one-pass stack machine over if, else and
 * end markers against the recursive meaning of the block tree they spell.
 */
module ConditionalBlocks {
  import opened Util

  datatype Token = Text(text: string) | IfTool(tool: string) | ElseTool(tool: string) | EndTool(tool: string)

  datatype Fault =
    | NoMatchingIf(tool: string)
    | Mismatched(tool: string, open: string)
    | DuplicateElse(tool: string)
    | Unclosed(tool: string)

  datatype Result<+T> = Ok(value: T) | Err(fault: Fault)

  // ----- The tree and its meaning -----

  datatype Block =
    | Chunk(text: string)
    | When(tool: string, thn: seq<Block>)
    | WhenElse(tool: string, thn: seq<Block>, els: seq<Block>)

  function Meaning(b: Block, available: string -> bool): string {
    match b
    case Chunk(text) => text
    case When(tool, thn) => if available(tool) then MeaningAll(thn, available) else ""
    case WhenElse(tool, thn, els) => if available(tool) then MeaningAll(thn, available) else MeaningAll(els, available)
  }

  function MeaningAll(bs: seq<Block>, available: string -> bool): string {
    if bs == [] then ""
    else MeaningAll(bs[..|bs| - 1], available) + Meaning(bs[|bs| - 1], available)
  }

  function Print(b: Block): seq<Token> {
    match b
    case Chunk(text) => [Text(text)]
    case When(tool, thn) => [IfTool(tool)] + PrintAll(thn) + [EndTool(tool)]
    case WhenElse(tool, thn, els) =>
      [IfTool(tool)] + PrintAll(thn) + [ElseTool(tool)] + PrintAll(els) + [EndTool(tool)]
  }

  function PrintAll(bs: seq<Block>): seq<Token> {
    if bs == [] then [] else PrintAll(bs[..|bs| - 1]) + Print(bs[|bs| - 1])
  }

  lemma PrintSnoc(bs: seq<Block>, b: Block)
    ensures PrintAll(bs + [b]) == PrintAll(bs) + Print(b)
  {
    assert (bs + [b])[..|bs|] == bs;
  }

  lemma MeaningSnoc(bs: seq<Block>, b: Block, available: string -> bool)
    ensures MeaningAll(bs + [b], available) == MeaningAll(bs, available) + Meaning(b, available)
  {
    assert (bs + [b])[..|bs|] == bs;
  }

  // ----- The stack machine -----

  datatype Frame = Frame(tool: string, seenElse: bool, ifBuf: string, elseBuf: string)

  datatype State = State(root: string, stack: seq<Frame>)

  function Append(s: State, chunk: string): State {
    if s.stack == [] then s.(root := s.root + chunk)
    else
      var n := |s.stack| - 1;
      var top := s.stack[n];
      s.(stack := s.stack[..n] + [if top.seenElse then top.(elseBuf := top.elseBuf + chunk)
                                  else top.(ifBuf := top.ifBuf + chunk)])
  }

  /** The open block an else or end marker belongs to. */
  function Innermost(stack: seq<Frame>, tool: string): (r: Result<Frame>)
    ensures r.Ok? ==> stack != [] && r.value == stack[|stack| - 1] && r.value.tool == tool
  {
    if stack == [] then Err(NoMatchingIf(tool))
    else
      var top := stack[|stack| - 1];
      if top.tool != tool then Err(Mismatched(tool, top.tool)) else Ok(top)
  }

  function Step(s: State, t: Token, available: string -> bool): Result<State> {
    match t
    case Text(text) => Ok(Append(s, text))
    case IfTool(tool) => Ok(s.(stack := s.stack + [Frame(tool, false, "", "")]))
    case ElseTool(tool) =>
      (match Innermost(s.stack, tool)
       case Err(f) => Err(f)
       case Ok(top) =>
         if top.seenElse then Err(DuplicateElse(tool))
         else Ok(s.(stack := s.stack[..|s.stack| - 1] + [top.(seenElse := true)])))
    case EndTool(tool) =>
      match Innermost(s.stack, tool)
      case Err(f) => Err(f)
      case Ok(top) =>
        Ok(Append(s.(stack := s.stack[..|s.stack| - 1]), if available(top.tool) then top.ifBuf else top.elseBuf))
  }

  function Run(ts: seq<Token>, available: string -> bool): Result<State> {
    if ts == [] then Ok(State("", []))
    else
      match Run(ts[..|ts| - 1], available)
      case Err(f) => Err(f)
      case Ok(s) => Step(s, ts[|ts| - 1], available)
  }

  function Resolve(ts: seq<Token>, available: string -> bool): Result<string> {
    match Run(ts, available)
    case Err(f) => Err(f)
    case Ok(s) => if s.stack == [] then Ok(s.root) else Err(Unclosed(s.stack[|s.stack| - 1].tool))
  }

  // ----- The same machine building trees -----

  datatype TreeFrame = TreeFrame(tool: string, seenElse: bool, thn: seq<Block>, els: seq<Block>)

  datatype TreeState = TreeState(root: seq<Block>, stack: seq<TreeFrame>)

  function Grow(s: TreeState, b: Block): TreeState {
    if s.stack == [] then s.(root := s.root + [b])
    else
      var n := |s.stack| - 1;
      var top := s.stack[n];
      s.(stack := s.stack[..n] + [if top.seenElse then top.(els := top.els + [b]) else top.(thn := top.thn + [b])])
  }

  function Closed(f: TreeFrame): Block {
    if f.seenElse then WhenElse(f.tool, f.thn, f.els) else When(f.tool, f.thn)
  }

  function InnermostTree(stack: seq<TreeFrame>, tool: string): (r: Result<TreeFrame>)
    ensures r.Ok? ==> stack != [] && r.value == stack[|stack| - 1] && r.value.tool == tool
  {
    if stack == [] then Err(NoMatchingIf(tool))
    else
      var top := stack[|stack| - 1];
      if top.tool != tool then Err(Mismatched(tool, top.tool)) else Ok(top)
  }

  function TreeStep(s: TreeState, t: Token): Result<TreeState> {
    match t
    case Text(text) => Ok(Grow(s, Chunk(text)))
    case IfTool(tool) => Ok(s.(stack := s.stack + [TreeFrame(tool, false, [], [])]))
    case ElseTool(tool) =>
      (match InnermostTree(s.stack, tool)
       case Err(f) => Err(f)
       case Ok(top) =>
         if top.seenElse then Err(DuplicateElse(tool))
         else Ok(s.(stack := s.stack[..|s.stack| - 1] + [top.(seenElse := true)])))
    case EndTool(tool) =>
      match InnermostTree(s.stack, tool)
      case Err(f) => Err(f)
      case Ok(top) => Ok(Grow(s.(stack := s.stack[..|s.stack| - 1]), Closed(top)))
  }

  function TreeRun(ts: seq<Token>): Result<TreeState> {
    if ts == [] then Ok(TreeState([], []))
    else
      match TreeRun(ts[..|ts| - 1])
      case Err(f) => Err(f)
      case Ok(s) => TreeStep(s, ts[|ts| - 1])
  }

  function Parse(ts: seq<Token>): Result<seq<Block>> {
    match TreeRun(ts)
    case Err(f) => Err(f)
    case Ok(s) => if s.stack == [] then Ok(s.root) else Err(Unclosed(s.stack[|s.stack| - 1].tool))
  }

  // ----- Parsing is the inverse of printing -----

  /** The tokens of a block still open. An else buffer is used only after an else marker. */
  function OpenTokens(f: TreeFrame): seq<Token> {
    if f.seenElse then [IfTool(f.tool)] + PrintAll(f.thn) + [ElseTool(f.tool)] + PrintAll(f.els)
    else [IfTool(f.tool)] + PrintAll(f.thn)
  }

  /** The tokens a tree state has consumed. */
  function Consumed(root: seq<Block>, stack: seq<TreeFrame>): seq<Token> {
    if stack == [] then PrintAll(root)
    else Consumed(root, stack[..|stack| - 1]) + OpenTokens(stack[|stack| - 1])
  }

  ghost predicate ElseUnused(stack: seq<TreeFrame>) {
    forall i :: 0 <= i < |stack| && !stack[i].seenElse ==> stack[i].els == []
  }

  lemma ConsumedSnoc(root: seq<Block>, stack: seq<TreeFrame>, f: TreeFrame)
    ensures Consumed(root, stack + [f]) == Consumed(root, stack) + OpenTokens(f)
  {
    assert (stack + [f])[..|stack|] == stack;
  }

  lemma OpenTokensGrow(f: TreeFrame, b: Block)
    ensures OpenTokens(if f.seenElse then f.(els := f.els + [b]) else f.(thn := f.thn + [b]))
            == OpenTokens(f) + Print(b)
  {
    PrintSnoc(f.thn, b);
    PrintSnoc(f.els, b);
  }

  lemma TopConsumes(root: seq<Block>, base: seq<TreeFrame>, f: TreeFrame, g: TreeFrame, more: seq<Token>)
    requires OpenTokens(g) == OpenTokens(f) + more
    ensures Consumed(root, base + [g]) == Consumed(root, base + [f]) + more
  {
    ConsumedSnoc(root, base, f);
    ConsumedSnoc(root, base, g);
    Assoc(Consumed(root, base), OpenTokens(f), more);
  }

  lemma GrowKeepsElseUnused(s: TreeState, b: Block)
    requires ElseUnused(s.stack)
    ensures ElseUnused(Grow(s, b).stack)
  {
  }

  lemma GrowConsumes(s: TreeState, b: Block)
    ensures Consumed(Grow(s, b).root, Grow(s, b).stack) == Consumed(s.root, s.stack) + Print(b)
  {
    if s.stack == [] {
      PrintSnoc(s.root, b);
    } else {
      var n := |s.stack| - 1;
      var f := s.stack[n];
      var g := if f.seenElse then f.(els := f.els + [b]) else f.(thn := f.thn + [b]);
      OpenTokensGrow(f, b);
      assert s.stack == s.stack[..n] + [f];
      TopConsumes(s.root, s.stack[..n], f, g, Print(b));
    }
  }

  lemma StepConsumes(s: TreeState, t: Token)
    requires ElseUnused(s.stack) && TreeStep(s, t).Ok?
    ensures var u := TreeStep(s, t).value;
            Consumed(u.root, u.stack) == Consumed(s.root, s.stack) + [t] && ElseUnused(u.stack)
  {
    match t
    case Text(text) =>
      GrowConsumes(s, Chunk(text));
      GrowKeepsElseUnused(s, Chunk(text));
    case IfTool(tool) => ConsumedSnoc(s.root, s.stack, TreeFrame(tool, false, [], []));
    case ElseTool(tool) => ElseConsumes(s, tool);
    case EndTool(tool) => EndConsumes(s, tool);
  }

  lemma ElseConsumes(s: TreeState, tool: string)
    requires ElseUnused(s.stack) && TreeStep(s, ElseTool(tool)).Ok?
    ensures var u := TreeStep(s, ElseTool(tool)).value;
            Consumed(u.root, u.stack) == Consumed(s.root, s.stack) + [ElseTool(tool)] && ElseUnused(u.stack)
  {
    var n := |s.stack| - 1;
    var base, f := s.stack[..n], s.stack[n];
    assert s.stack == base + [f];
    ElseOpens(f);
    TopConsumes(s.root, base, f, f.(seenElse := true), [ElseTool(f.tool)]);
    ElseUnusedTop(base, f, f.(seenElse := true));
  }

  lemma ElseOpens(f: TreeFrame)
    requires !f.seenElse && f.els == []
    ensures OpenTokens(f.(seenElse := true)) == OpenTokens(f) + [ElseTool(f.tool)]
  {
  }

  lemma ElseUnusedTop(base: seq<TreeFrame>, f: TreeFrame, g: TreeFrame)
    requires ElseUnused(base + [f]) && (!g.seenElse ==> g.els == [])
    ensures ElseUnused(base + [g])
  {
    forall i | 0 <= i < |base| ensures !base[i].seenElse ==> base[i].els == [] {
      assert (base + [f])[i] == base[i];
    }
  }

  lemma EndConsumes(s: TreeState, tool: string)
    requires ElseUnused(s.stack) && TreeStep(s, EndTool(tool)).Ok?
    ensures var u := TreeStep(s, EndTool(tool)).value;
            Consumed(u.root, u.stack) == Consumed(s.root, s.stack) + [EndTool(tool)] && ElseUnused(u.stack)
  {
    var n := |s.stack| - 1;
    var base, f := s.(stack := s.stack[..n]), s.stack[n];
    assert s.stack == base.stack + [f];
    GrowConsumes(base, Closed(f));
    GrowKeepsElseUnused(base, Closed(f));
    ConsumedSnoc(s.root, base.stack, f);
    ClosedTokens(f);
    Assoc(Consumed(base.root, base.stack), OpenTokens(f), [EndTool(tool)]);
  }

  lemma ClosedTokens(f: TreeFrame)
    ensures Print(Closed(f)) == OpenTokens(f) + [EndTool(f.tool)]
  {
  }

  lemma Assoc(a: seq<Token>, b: seq<Token>, c: seq<Token>)
    ensures (a + b) + c == a + (b + c)
  {
  }

  lemma {:induction false} RunConsumes(ts: seq<Token>)
    requires TreeRun(ts).Ok?
    ensures var s := TreeRun(ts).value; Consumed(s.root, s.stack) == ts && ElseUnused(s.stack)
  {
    if ts != [] {
      var front := ts[..|ts| - 1];
      RunConsumes(front);
      StepConsumes(TreeRun(front).value, ts[|ts| - 1]);
    }
  }

  /** What parses is the printing of its tree. */
  lemma PrintOfParse(ts: seq<Token>)
    requires Parse(ts).Ok?
    ensures PrintAll(Parse(ts).value) == ts
  {
    RunConsumes(ts);
  }

  function GrowAll(s: TreeState, bs: seq<Block>): TreeState {
    if bs == [] then s else Grow(GrowAll(s, bs[..|bs| - 1]), bs[|bs| - 1])
  }

  lemma TreeRunSnoc(ts: seq<Token>, t: Token)
    requires TreeRun(ts).Ok?
    ensures TreeRun(ts + [t]) == TreeStep(TreeRun(ts).value, t)
  {
    assert (ts + [t])[..|ts|] == ts;
  }

  /** Blocks grown onto a fresh frame collect in its current buffer. */
  lemma {:induction false} GrowAllTop(s: TreeState, f: TreeFrame, bs: seq<Block>)
    requires s.stack != [] && s.stack[|s.stack| - 1] == f
    ensures GrowAll(s, bs) == s.(stack := s.stack[..|s.stack| - 1]
              + [if f.seenElse then f.(els := f.els + bs) else f.(thn := f.thn + bs)])
  {
    var n := |s.stack| - 1;
    if bs == [] {
      assert f.els + [] == f.els && f.thn + [] == f.thn;
      assert s.stack == s.stack[..n] + [f];
    } else {
      var front, last := bs[..|bs| - 1], bs[|bs| - 1];
      GrowAllTop(s, f, front);
      assert bs == front + [last];
      assert f.els + front + [last] == f.els + bs && f.thn + front + [last] == f.thn + bs;
    }
  }

  lemma {:induction false} GrowAllRoot(bs: seq<Block>)
    ensures GrowAll(TreeState([], []), bs) == TreeState(bs, [])
  {
    if bs != [] {
      GrowAllRoot(bs[..|bs| - 1]);
    }
  }

  // One marker at a time, on a state whose innermost block is f.

  function With(s: TreeState, f: TreeFrame): TreeState { s.(stack := s.stack + [f]) }

  lemma RunIf(ts: seq<Token>, s: TreeState, tool: string)
    requires TreeRun(ts) == Ok(s)
    ensures TreeRun(ts + [IfTool(tool)]) == Ok(With(s, TreeFrame(tool, false, [], [])))
  {
    TreeRunSnoc(ts, IfTool(tool));
  }

  lemma RunElse(ts: seq<Token>, s: TreeState, f: TreeFrame)
    requires TreeRun(ts) == Ok(With(s, f)) && !f.seenElse
    ensures TreeRun(ts + [ElseTool(f.tool)]) == Ok(With(s, f.(seenElse := true)))
  {
    TreeRunSnoc(ts, ElseTool(f.tool));
    assert With(s, f).stack[..|s.stack|] == s.stack;
  }

  lemma RunEnd(ts: seq<Token>, s: TreeState, f: TreeFrame)
    requires TreeRun(ts) == Ok(With(s, f))
    ensures TreeRun(ts + [EndTool(f.tool)]) == Ok(Grow(s, Closed(f)))
  {
    TreeRunSnoc(ts, EndTool(f.tool));
    assert With(s, f).stack[..|s.stack|] == s.stack;
  }

  lemma GrowAllWith(s: TreeState, f: TreeFrame, bs: seq<Block>)
    ensures GrowAll(With(s, f), bs) == With(s, if f.seenElse then f.(els := f.els + bs) else f.(thn := f.thn + bs))
  {
    GrowAllTop(With(s, f), f, bs);
    assert With(s, f).stack[..|s.stack|] == s.stack;
  }

  /** After an if marker and the printed then-branch, the innermost block holds that branch. */
  lemma {:induction false} RunThen(ts: seq<Token>, s: TreeState, tool: string, thn: seq<Block>) returns (us: seq<Token>)
    requires TreeRun(ts) == Ok(s)
    ensures us == ts + ([IfTool(tool)] + PrintAll(thn))
    ensures TreeRun(us) == Ok(With(s, TreeFrame(tool, false, thn, [])))
    decreases thn, 2
  {
    var f := TreeFrame(tool, false, [], []);
    var begun := ts + [IfTool(tool)];
    RunIf(ts, s, tool);
    us := RunPrintAll(begun, With(s, f), thn);
    GrowAllWith(s, f, thn);
    assert [] + thn == thn;
    Assoc(ts, [IfTool(tool)], PrintAll(thn));
  }

  lemma {:induction false} RunElseBranch(ts: seq<Token>, s: TreeState, tool: string, thn: seq<Block>, els: seq<Block>)
    returns (us: seq<Token>)
    requires TreeRun(ts) == Ok(With(s, TreeFrame(tool, false, thn, [])))
    ensures us == ts + ([ElseTool(tool)] + PrintAll(els))
    ensures TreeRun(us) == Ok(With(s, TreeFrame(tool, true, thn, els)))
    decreases els, 2
  {
    var f := TreeFrame(tool, false, thn, []);
    RunElse(ts, s, f);
    us := RunPrintAll(ts + [ElseTool(tool)], With(s, f.(seenElse := true)), els);
    GrowAllWith(s, f.(seenElse := true), els);
    assert [] + els == els;
    Assoc(ts, [ElseTool(tool)], PrintAll(els));
  }

  lemma {:induction false} RunWhen(ts: seq<Token>, s: TreeState, tool: string, thn: seq<Block>) returns (us: seq<Token>)
    requires TreeRun(ts) == Ok(s)
    ensures us == ts + (([IfTool(tool)] + PrintAll(thn)) + [EndTool(tool)])
    ensures TreeRun(us) == Ok(Grow(s, When(tool, thn)))
    decreases thn, 3
  {
    var mid := RunThen(ts, s, tool, thn);
    RunEnd(mid, s, TreeFrame(tool, false, thn, []));
    us := mid + [EndTool(tool)];
    Assoc(ts, [IfTool(tool)] + PrintAll(thn), [EndTool(tool)]);
  }

  lemma {:induction false} RunWhenElse(ts: seq<Token>, s: TreeState, tool: string, thn: seq<Block>, els: seq<Block>,
                                       b: Block)
    returns (us: seq<Token>)
    requires TreeRun(ts) == Ok(s) && b == WhenElse(tool, thn, els)
    ensures us == ts + ((([IfTool(tool)] + PrintAll(thn)) + ([ElseTool(tool)] + PrintAll(els))) + [EndTool(tool)])
    ensures TreeRun(us) == Ok(Grow(s, b))
    decreases b, 0
  {
    var mid := RunThen(ts, s, tool, thn);
    var last := RunElseBranch(mid, s, tool, thn, els);
    RunEnd(last, s, TreeFrame(tool, true, thn, els));
    us := last + [EndTool(tool)];
    Assoc(ts, [IfTool(tool)] + PrintAll(thn), [ElseTool(tool)] + PrintAll(els));
    Assoc(ts, ([IfTool(tool)] + PrintAll(thn)) + ([ElseTool(tool)] + PrintAll(els)), [EndTool(tool)]);
  }

  lemma PrintShapes(tool: string, thn: seq<Block>, els: seq<Block>)
    ensures Print(When(tool, thn)) == ([IfTool(tool)] + PrintAll(thn)) + [EndTool(tool)]
    ensures Print(WhenElse(tool, thn, els))
            == (([IfTool(tool)] + PrintAll(thn)) + ([ElseTool(tool)] + PrintAll(els))) + [EndTool(tool)]
  {
  }

  /** Running a printed block from any point of a run grows exactly that block. */
  lemma {:induction false} RunPrint(ts: seq<Token>, s: TreeState, b: Block) returns (us: seq<Token>)
    requires TreeRun(ts) == Ok(s)
    ensures us == ts + Print(b) && TreeRun(us) == Ok(Grow(s, b))
    decreases b, 1
  {
    match b
    case Chunk(text) =>
      us := ts + [Text(text)];
      TreeRunSnoc(ts, Text(text));
    case When(tool, thn) =>
      us := RunWhen(ts, s, tool, thn);
      PrintShapes(tool, thn, []);
    case WhenElse(tool, thn, els) =>
      us := RunWhenElse(ts, s, tool, thn, els, b);
      PrintShapes(tool, thn, els);
  }

  lemma {:induction false} RunPrintAll(ts: seq<Token>, s: TreeState, bs: seq<Block>) returns (us: seq<Token>)
    requires TreeRun(ts) == Ok(s)
    ensures us == ts + PrintAll(bs) && TreeRun(us) == Ok(GrowAll(s, bs))
    decreases bs, 1
  {
    if bs == [] {
      us := ts;
    } else {
      var front, last := bs[..|bs| - 1], bs[|bs| - 1];
      var mid := RunPrintAll(ts, s, front);
      us := RunPrint(mid, GrowAll(s, front), last);
      Assoc(ts, PrintAll(front), Print(last));
    }
  }

  /** The printing of a tree parses back to it; so no two trees print alike. */
  lemma ParseOfPrint(bs: seq<Block>)
    ensures Parse(PrintAll(bs)) == Ok(bs)
  {
    var us := RunPrintAll([], TreeState([], []), bs);
    assert us == PrintAll(bs);
    GrowAllRoot(bs);
  }

  // ----- The string machine is the image of the tree machine -----

  function FrameImage(f: TreeFrame, available: string -> bool): Frame {
    Frame(f.tool, f.seenElse, MeaningAll(f.thn, available), MeaningAll(f.els, available))
  }

  function Image(s: TreeState, available: string -> bool): State {
    State(MeaningAll(s.root, available), Map(s.stack, (f: TreeFrame) => FrameImage(f, available)))
  }

  lemma GrowImage(s: TreeState, b: Block, available: string -> bool)
    ensures Image(Grow(s, b), available) == Append(Image(s, available), Meaning(b, available))
  {
    if s.stack == [] {
      MeaningSnoc(s.root, b, available);
    } else {
      var top := s.stack[|s.stack| - 1];
      MeaningSnoc(top.thn, b, available);
      MeaningSnoc(top.els, b, available);
    }
  }

  lemma PushImage(s: TreeState, f: TreeFrame, available: string -> bool)
    ensures Image(s.(stack := s.stack + [f]), available)
            == Image(s, available).(stack := Image(s, available).stack + [FrameImage(f, available)])
  {
  }

  lemma PopImage(s: TreeState, available: string -> bool)
    requires s.stack != []
    ensures var n := |s.stack| - 1;
            && Image(s.(stack := s.stack[..n]), available)
               == Image(s, available).(stack := Image(s, available).stack[..n])
            && Image(s, available).stack[n] == FrameImage(s.stack[n], available)
  {
  }

  lemma ElseImage(s: TreeState, tool: string, available: string -> bool)
    requires TreeStep(s, ElseTool(tool)).Ok?
    ensures Step(Image(s, available), ElseTool(tool), available)
            == Ok(Image(TreeStep(s, ElseTool(tool)).value, available))
  {
    var n := |s.stack| - 1;
    var popped, g := s.(stack := s.stack[..n]), s.stack[n].(seenElse := true);
    PopImage(s, available);
    PushImage(popped, g, available);
    assert TreeStep(s, ElseTool(tool)).value == popped.(stack := popped.stack + [g]);
  }

  lemma EndImage(s: TreeState, tool: string, available: string -> bool)
    requires ElseUnused(s.stack) && TreeStep(s, EndTool(tool)).Ok?
    ensures Step(Image(s, available), EndTool(tool), available)
            == Ok(Image(TreeStep(s, EndTool(tool)).value, available))
  {
    var n := |s.stack| - 1;
    PopImage(s, available);
    GrowImage(s.(stack := s.stack[..n]), Closed(s.stack[n]), available);
  }

  lemma StepImage(s: TreeState, t: Token, available: string -> bool)
    requires ElseUnused(s.stack)
    ensures Step(Image(s, available), t, available)
            == match TreeStep(s, t) case Err(f) => Err(f) case Ok(u) => Ok(Image(u, available))
  {
    if s.stack != [] {
      PopImage(s, available);
    }
    match t
    case Text(text) => GrowImage(s, Chunk(text), available);
    case IfTool(tool) => PushImage(s, TreeFrame(tool, false, [], []), available);
    case ElseTool(tool) =>
      if TreeStep(s, t).Ok? {
        ElseImage(s, tool, available);
      }
    case EndTool(tool) =>
      if TreeStep(s, t).Ok? {
        EndImage(s, tool, available);
      }
  }

  lemma {:induction false} RunImage(ts: seq<Token>, available: string -> bool)
    ensures Run(ts, available) == match TreeRun(ts) case Err(f) => Err(f) case Ok(s) => Ok(Image(s, available))
  {
    if ts == [] {
      assert Image(TreeState([], []), available) == State("", []);
    } else {
      var front := ts[..|ts| - 1];
      RunImage(front, available);
      if TreeRun(front).Ok? {
        RunConsumes(front);
        StepImage(TreeRun(front).value, ts[|ts| - 1], available);
      }
    }
  }

  /** One pass over the tokens evaluates the parsed tree; faults are the parser's. */
  lemma ResolveIsMeaning(ts: seq<Token>, available: string -> bool)
    ensures Resolve(ts, available)
            == match Parse(ts) case Err(f) => Err(f) case Ok(bs) => Ok(MeaningAll(bs, available))
  {
    RunImage(ts, available);
    if TreeRun(ts).Ok? && TreeRun(ts).value.stack != [] {
      PopImage(TreeRun(ts).value, available);
    }
  }

  /** Resolving the printing of a block tree gives the tree's meaning. */
  lemma ResolvePrinted(bs: seq<Block>, available: string -> bool)
    ensures Resolve(PrintAll(bs), available) == Ok(MeaningAll(bs, available))
  {
    ParseOfPrint(bs);
    ResolveIsMeaning(PrintAll(bs), available);
  }

  /** Resolution succeeds exactly on the printings of block trees. */
  lemma ResolvesIffPrinted(ts: seq<Token>, available: string -> bool)
    ensures Resolve(ts, available).Ok? <==> exists bs :: PrintAll(bs) == ts
  {
    ResolveIsMeaning(ts, available);
    if Parse(ts).Ok? {
      PrintOfParse(ts);
    }
    if bs :| PrintAll(bs) == ts {
      ResolvePrinted(bs, available);
    }
  }

  /** Whether resolution throws, and what it throws, does not depend on the provider. */
  lemma FaultsIndependent(ts: seq<Token>, a: string -> bool, b: string -> bool)
    ensures Resolve(ts, a).Ok? == Resolve(ts, b).Ok?
    ensures Resolve(ts, a).Err? ==> Resolve(ts, a) == Resolve(ts, b)
  {
    ResolveIsMeaning(ts, a);
    ResolveIsMeaning(ts, b);
  }

  // ----- Only the tools a file mentions matter -----

  ghost predicate AgreeOn(ts: seq<Token>, a: string -> bool, b: string -> bool) {
    forall i :: 0 <= i < |ts| && ts[i].IfTool? ==> a(ts[i].tool) == b(ts[i].tool)
  }

  lemma {:induction false} MeaningAgrees(b: Block, f: string -> bool, g: string -> bool)
    requires AgreeOn(Print(b), f, g)
    ensures Meaning(b, f) == Meaning(b, g)
    decreases b, 0
  {
    match b
    case Chunk(_) =>
    case When(tool, thn) =>
      assert Print(b)[0] == IfTool(tool);
      AgreePart(Print(b), [IfTool(tool)], PrintAll(thn), [EndTool(tool)], f, g);
      MeaningAllAgrees(thn, f, g);
    case WhenElse(tool, thn, els) =>
      assert Print(b)[0] == IfTool(tool);
      var tail := [ElseTool(tool)] + PrintAll(els) + [EndTool(tool)];
      assert Print(b) == [IfTool(tool)] + PrintAll(thn) + tail;
      AgreePart(Print(b), [IfTool(tool)], PrintAll(thn), tail, f, g);
      AgreePart(Print(b), [IfTool(tool)] + PrintAll(thn) + [ElseTool(tool)], PrintAll(els), [EndTool(tool)], f, g);
      MeaningAllAgrees(thn, f, g);
      MeaningAllAgrees(els, f, g);
  }

  lemma {:induction false} MeaningAllAgrees(bs: seq<Block>, f: string -> bool, g: string -> bool)
    requires AgreeOn(PrintAll(bs), f, g)
    ensures MeaningAll(bs, f) == MeaningAll(bs, g)
    decreases bs, 1
  {
    if bs != [] {
      var front, last := bs[..|bs| - 1], bs[|bs| - 1];
      AgreePart(PrintAll(bs), [], PrintAll(front), Print(last), f, g);
      AgreePart(PrintAll(bs), PrintAll(front), Print(last), [], f, g);
      MeaningAllAgrees(front, f, g);
      MeaningAgrees(last, f, g);
    }
  }

  lemma AgreePart(whole: seq<Token>, a: seq<Token>, m: seq<Token>, z: seq<Token>, f: string -> bool, g: string -> bool)
    requires whole == a + m + z && AgreeOn(whole, f, g)
    ensures AgreeOn(m, f, g)
  {
    forall i | 0 <= i < |m| && m[i].IfTool? ensures f(m[i].tool) == g(m[i].tool) {
      assert whole[|a| + i] == m[i];
    }
  }

  /** Two providers that agree on the tools named by the file's if markers get the same text. */
  lemma OnlyMentionedToolsMatter(ts: seq<Token>, f: string -> bool, g: string -> bool)
    requires AgreeOn(ts, f, g)
    ensures Resolve(ts, f) == Resolve(ts, g)
  {
    ResolveIsMeaning(ts, f);
    ResolveIsMeaning(ts, g);
    if Parse(ts).Ok? {
      PrintOfParse(ts);
      MeaningAllAgrees(Parse(ts).value, f, g);
    }
  }

  // ----- Availability -----

  function IsWildcardTools(tools: seq<string>): bool { "*" in tools }

  function ToolAvailability(declared: Option<seq<string>>, supported: Option<seq<string>>): string -> bool {
    (tool: string) =>
      && (declared.None? || IsWildcardTools(declared.value) || tool in declared.value)
      && (supported.None? || tool in supported.value)
  }

  /** A declaration that names every supported tool the file mentions, a wildcard and no
      declaration at all resolve a file alike. */
  lemma DeclarationEquivalence(ts: seq<Token>, declared: seq<string>, supported: Option<seq<string>>)
    requires IsWildcardTools(declared)
             || forall i :: 0 <= i < |ts| && ts[i].IfTool? && (supported.None? || ts[i].tool in supported.value) ==>
                 ts[i].tool in declared
    ensures Resolve(ts, ToolAvailability(Some(declared), supported)) == Resolve(ts, ToolAvailability(None, supported))
  {
    OnlyMentionedToolsMatter(ts, ToolAvailability(Some(declared), supported), ToolAvailability(None, supported));
  }

  /** A block keeps its first branch exactly if the agent declares the tool (or declares a wildcard, or
      nothing) and the provider supports it (or supports all); otherwise its else branch, if any. */
  lemma BranchTaken(tool: string, thn: seq<Block>, els: seq<Block>, declared: Option<seq<string>>,
                    supported: Option<seq<string>>)
    ensures var available := ToolAvailability(declared, supported);
            var granted := declared.None? || "*" in declared.value || tool in declared.value;
            var known := supported.None? || tool in supported.value;
            && Resolve(PrintAll([WhenElse(tool, thn, els)]), available)
               == Ok(MeaningAll(if granted && known then thn else els, available))
            && Resolve(PrintAll([When(tool, thn)]), available)
               == Ok(if granted && known then MeaningAll(thn, available) else "")
  {
    var available := ToolAvailability(declared, supported);
    ResolvePrinted([WhenElse(tool, thn, els)], available);
    ResolvePrinted([When(tool, thn)], available);
    MeaningSnoc([], WhenElse(tool, thn, els), available);
    MeaningSnoc([], When(tool, thn), available);
    assert [] + [WhenElse(tool, thn, els)] == [WhenElse(tool, thn, els)];
    assert [] + [When(tool, thn)] == [When(tool, thn)];
    Alone(Meaning(WhenElse(tool, thn, els), available));
    Alone(Meaning(When(tool, thn), available));
  }

  lemma Alone(s: string)
    ensures "" + s == s
  {
  }

  // ----- The resolver itself: a cursor over the text and the markers found in it -----

  datatype Marker = Marker(token: Token, start: nat, end: nat)

  /** What the scan finds: markers in order, none a text, not overlapping. */
  ghost predicate Scanned(text: string, ms: seq<Marker>) {
    && (forall i :: 0 <= i < |ms| ==> !ms[i].token.Text? && ms[i].start <= ms[i].end <= |text|)
    && (forall i :: 0 <= i < |ms| - 1 ==> ms[i].end <= ms[i + 1].start)
  }

  function Cursor(ms: seq<Marker>): nat {
    if ms == [] then 0 else ms[|ms| - 1].end
  }

  /** The tokens of the text up to the cursor. */
  function TokensUpTo(text: string, ms: seq<Marker>): seq<Token>
    requires Scanned(text, ms)
  {
    if ms == [] then []
    else
      var front, m := ms[..|ms| - 1], ms[|ms| - 1];
      assert Scanned(text, front);
      assert Cursor(front) <= m.start by { if front != [] { assert ms[|ms| - 2].end <= ms[|ms| - 2 + 1].start; } }
      TokensUpTo(text, front) + [Text(text[Cursor(front)..m.start])] + [m.token]
  }

  function Tokens(text: string, ms: seq<Marker>): seq<Token>
    requires Scanned(text, ms)
  {
    TokensUpTo(text, ms) + [Text(text[Cursor(ms)..])]
  }

  lemma RunSnoc(ts: seq<Token>, t: Token, available: string -> bool)
    ensures Run(ts + [t], available)
            == match Run(ts, available) case Err(f) => Err(f) case Ok(s) => Step(s, t, available)
  {
    assert (ts + [t])[..|ts|] == ts;
  }

  lemma {:induction false} FaultSticks(ts: seq<Token>, us: seq<Token>, available: string -> bool)
    requires Run(ts, available).Err?
    ensures Run(ts + us, available) == Run(ts, available)
  {
    if us == [] {
      assert ts + us == ts;
    } else {
      FaultSticks(ts, us[..|us| - 1], available);
      RunSnoc(ts + us[..|us| - 1], us[|us| - 1], available);
      assert ts + us == (ts + us[..|us| - 1]) + [us[|us| - 1]];
    }
  }

  lemma {:induction false} TokensPrefix(text: string, ms: seq<Marker>, n: nat) returns (rest: seq<Token>)
    requires n <= |ms| && Scanned(text, ms) && Scanned(text, ms[..n])
    ensures TokensUpTo(text, ms) == TokensUpTo(text, ms[..n]) + rest
    decreases |ms|
  {
    if n == |ms| {
      assert ms[..n] == ms;
      rest := [];
    } else {
      var front := ms[..|ms| - 1];
      assert front[..n] == ms[..n];
      rest := TokensPrefix(text, front, n);
      rest := rest + [Text(text[Cursor(front)..ms[|ms| - 1].start])] + [ms[|ms| - 1].token];
    }
  }

  method AppendTo(root: string, stack: seq<Frame>, chunk: string) returns (root': string, stack': seq<Frame>)
    ensures State(root', stack') == Append(State(root, stack), chunk)
  {
    root', stack' := root, stack;
    if chunk == "" {
      if stack != [] {
        var top := stack[|stack| - 1];
        assert top.elseBuf + "" == top.elseBuf && top.ifBuf + "" == top.ifBuf;
      }
      assert root + "" == root;
      return;
    }
    if stack == [] {
      root' := root + chunk;
    } else {
      var top := stack[|stack| - 1];
      if top.seenElse {
        stack' := stack[|stack| - 1 := top.(elseBuf := top.elseBuf + chunk)];
      } else {
        stack' := stack[|stack| - 1 := top.(ifBuf := top.ifBuf + chunk)];
      }
    }
  }

  /** The run over one more chunk and marker. */
  function Advance(s: State, chunk: string, t: Token, available: string -> bool): Result<State> {
    Step(Append(s, chunk), t, available)
  }

  lemma AdvanceRun(text: string, ms: seq<Marker>, i: nat, s: State, available: string -> bool)
    requires Scanned(text, ms) && i < |ms| && Scanned(text, ms[..i]) && Scanned(text, ms[..i + 1])
    requires Run(TokensUpTo(text, ms[..i]), available) == Ok(s)
    requires Cursor(ms[..i]) <= ms[i].start
    ensures Run(TokensUpTo(text, ms[..i + 1]), available)
            == Advance(s, text[Cursor(ms[..i])..ms[i].start], ms[i].token, available)
  {
    assert ms[..i + 1][..i] == ms[..i];
    var seen, chunk := TokensUpTo(text, ms[..i]), Text(text[Cursor(ms[..i])..ms[i].start]);
    RunSnoc(seen, chunk, available);
    RunSnoc(seen + [chunk], ms[i].token, available);
  }

  /** A fault at a marker is the fault of the whole text. */
  lemma AdvanceFault(text: string, ms: seq<Marker>, i: nat, available: string -> bool)
    requires Scanned(text, ms) && i <= |ms| && Scanned(text, ms[..i]) && Run(TokensUpTo(text, ms[..i]), available).Err?
    ensures Resolve(Tokens(text, ms), available) == Err(Run(TokensUpTo(text, ms[..i]), available).fault)
  {
    var rest := TokensPrefix(text, ms, i);
    var tail := rest + [Text(text[Cursor(ms)..])];
    FaultSticks(TokensUpTo(text, ms[..i]), tail, available);
    assert Tokens(text, ms) == TokensUpTo(text, ms[..i]) + tail;
  }

  /** One iteration: append the chunk before the marker, then act on the marker. */
  method OnMarker(root: string, stack: seq<Frame>, chunk: string, marker: Token, available: string -> bool)
    returns (r: Result<State>)
    requires !marker.Text?
    ensures r == Advance(State(root, stack), chunk, marker, available)
  {
    var root', stack' := AppendTo(root, stack, chunk);
    if marker.IfTool? {
      return Ok(State(root', stack' + [Frame(marker.tool, false, "", "")]));
    }
    if stack' == [] {
      return Err(NoMatchingIf(marker.tool));
    }
    var top := stack'[|stack'| - 1];
    if top.tool != marker.tool {
      return Err(Mismatched(marker.tool, top.tool));
    }
    if marker.ElseTool? {
      if top.seenElse {
        return Err(DuplicateElse(marker.tool));
      }
      return Ok(State(root', stack'[..|stack'| - 1] + [top.(seenElse := true)]));
    }
    root', stack' := AppendTo(root', stack'[..|stack'| - 1], if available(top.tool) then top.ifBuf else top.elseBuf);
    return Ok(State(root', stack'));
  }

  lemma ScannedPrefix(text: string, ms: seq<Marker>, i: nat)
    requires Scanned(text, ms) && i <= |ms|
    ensures Scanned(text, ms[..i])
    ensures i < |ms| ==> Cursor(ms[..i]) <= ms[i].start
  {
    if 0 < i < |ms| {
      assert ms[i - 1].end <= ms[i - 1 + 1].start;
    }
  }

  method ResolveConditionalBody(text: string, markers: seq<Marker>, available: string -> bool)
    returns (r: Result<string>)
    requires Scanned(text, markers)
    ensures r == Resolve(Tokens(text, markers), available)
  {
    if |markers| == 0 {
      NoMarkers(text, available);
      return Ok(text);
    }
    var stack: seq<Frame> := [];
    var root := "";
    var cursor := 0;
    for i := 0 to |markers|
      invariant Scanned(text, markers[..i]) && cursor == Cursor(markers[..i])
      invariant Run(TokensUpTo(text, markers[..i]), available) == Ok(State(root, stack))
    {
      ScannedPrefix(text, markers, i);
      ScannedPrefix(text, markers, i + 1);
      AdvanceRun(text, markers, i, State(root, stack), available);
      var after := OnMarker(root, stack, text[cursor..markers[i].start], markers[i].token, available);
      if after.Err? {
        AdvanceFault(text, markers, i + 1, available);
        return Err(after.fault);
      }
      root, stack := after.value.root, after.value.stack;
      cursor := markers[i].end;
    }
    assert markers[..|markers|] == markers;
    RunSnoc(TokensUpTo(text, markers), Text(text[cursor..]), available);
    root, stack := AppendTo(root, stack, text[cursor..]);
    if |stack| > 0 {
      return Err(Unclosed(stack[|stack| - 1].tool));
    }
    return Ok(root);
  }

  lemma NoMarkers(text: string, available: string -> bool)
    ensures Scanned(text, []) && Resolve(Tokens(text, []), available) == Ok(text)
  {
    RunSnoc([], Text(text), available);
    assert text[0..] == text && [] + [Text(text)] == [Text(text)];
    assert "" + text == text;
  }
}
