/** `Stack` of old/src/stack.rs: one vector of frames, numbers and labels,
    and the positions of the frames and of the labels in it.  Each method
    changes the three vectors in place and is proved to do what the
    function of the same name in `StackSpec` says. */
module Stacks {
  import opened Bytes
  import opened Outcomes
  import opened Numbers
  import Functions
  import Frames
  import opened StackSpec

  class Stack {
    var stack: seq<Entry>
    var framePositions: seq<nat>
    var labelPositions: seq<nat>

    function State(): StackState
      reads this
    {
      StackState(stack, framePositions, labelPositions)
    }

    /** `Stack::new()`. */
    constructor()
      ensures State() == Empty
    {
      stack := [];
      framePositions := [];
      labelPositions := [];
    }

    method PushValues(n: Number) returns (r: Result<()>)
      modifies this
      ensures Updates(StackSpec.PushValues(old(State()), n), r, State())
    {
      var num := n;
      match n {
        case Int32(v) =>
          if v < 0 {
            var abs := if v == -TWO31 then TWO31 else -v;
            num := Uint32(TWO31 - abs + TWO31);
          }
        case Int64(v) =>
          if v < 0 {
            return Panic("attempt to multiply with overflow");
          }
        case _ =>
      }
      stack := stack + [NumberEntry(num)];
      return Ok(());
    }

    method PushFrame(f: Frames.Frame)
      modifies this
      ensures State() == StackSpec.PushFrame(old(State()), f)
    {
      stack := stack + [FrameEntry(f)];
      framePositions := framePositions + [|stack| - 1];
    }

    method PushLabel(b: Functions.Block)
      modifies this
      ensures State() == StackSpec.PushLabel(old(State()), b)
    {
      stack := stack + [BlockEntry(b)];
      labelPositions := labelPositions + [|stack| - 1];
    }

    method PopValue() returns (r: Result<Option<Number>>)
      modifies this
      ensures Agrees(StackSpec.PopValue(old(State())), r, State())
    {
      if |stack| == 0 {
        return Ok(None);
      }
      var top := stack[|stack| - 1];
      stack := stack[..|stack| - 1];
      if !top.NumberEntry? {
        return Panic("stack top is not value");
      }
      return Ok(Some(RestoredAsWritten(top.num)));
    }

    method PopAllFromLabel(p: nat) returns (r: Result<()>)
      modifies this
      ensures Updates(StackSpec.PopAllFromLabel(old(State()), p), r, State())
    {
      if p > |stack| {
        return Panic("range end index out of range for slice");
      }
      stack := stack[..p];
      if |labelPositions| == 0 {
        return Panic("attempt to subtract with overflow");
      }
      labelPositions := labelPositions[..|labelPositions| - 1];
      return Ok(());
    }

    method PopLastLabel() returns (r: Result<()>)
      modifies this
      ensures Updates(StackSpec.PopLastLabel(old(State())), r, State())
    {
      if |labelPositions| == 0 {
        return Panic("label_positions has no value");
      }
      var idx := labelPositions[|labelPositions| - 1];
      labelPositions := labelPositions[..|labelPositions| - 1];
      if idx >= |stack| {
        return Panic("swap_remove index out of bounds");
      }
      var last := stack[|stack| - 1];
      stack := stack[idx := last][..|stack| - 1];
      assert stack == SwapRemove(old(stack), idx);
      return Ok(());
    }

    method PopCurrentFrame() returns (r: Result<()>)
      modifies this
      ensures Updates(StackSpec.PopCurrentFrame(old(State())), r, State())
    {
      if |framePositions| == 0 {
        return Panic("frame_positions has no value");
      }
      var idx := framePositions[|framePositions| - 1];
      framePositions := framePositions[..|framePositions| - 1];
      if idx > |stack| {
        return Panic("range end index out of range for slice");
      }
      stack := stack[..idx];
      return Ok(());
    }

    method Peek() returns (r: Result<Number>)
      ensures r == StackSpec.Peek(State())
    {
      if |stack| == 0 {
        return Panic(NoneUnwrap);
      }
      var top := stack[|stack| - 1];
      if !top.NumberEntry? {
        return Panic("stack top is not value");
      }
      return Ok(top.num);
    }

    method NextOpcode(f: Frames.Frame) returns (op: Option<byte>, f': Frames.Frame)
      ensures (op, f') == StackSpec.NextOpcode(f)
    {
      var counter := f.counter;
      f' := f.(counter := counter + 1);
      op := if counter < |f.func.bytecodes| then Some(f.func.bytecodes[counter]) else None;
    }

    method CurrentFrame() returns (r: Result<Option<Frames.Frame>>)
      ensures r == StackSpec.CurrentFrame(State())
    {
      if |framePositions| == 0 {
        return Ok(None);
      }
      var idx := framePositions[|framePositions| - 1];
      if idx >= |stack| {
        return Panic(NoneUnwrap);
      }
      match stack[idx] {
        case FrameEntry(f) => return Ok(Some(f));
        case _ => return Panic(Unreachable);
      }
    }

    method CurrentBytecodes(f: Frames.Frame) returns (r: Result<seq<byte>>)
      ensures r == StackSpec.CurrentBytecodes(f)
    {
      if f.counter > |f.func.bytecodes| {
        return Panic("bytecodes do not exist");
      }
      return Ok(f.func.bytecodes[f.counter..]);
    }

    method LabelPosition(d: nat) returns (r: Result<nat>)
      ensures r == StackSpec.LabelPosition(State(), d)
    {
      if d >= |labelPositions| {
        return Panic("attempt to subtract with overflow");
      }
      return Ok(labelPositions[|labelPositions| - d - 1]);
    }

    method GetLabel(d: nat) returns (r: Result<Functions.Block>)
      ensures r == StackSpec.GetLabel(State(), d)
    {
      var p := LabelPosition(d);
      if p.Panic? {
        return Panic(p.reason);
      }
      if p.value >= |stack| {
        return Panic("index out of bounds");
      }
      match stack[p.value] {
        case BlockEntry(b) => return Ok(b);
        case _ => return Panic(Unreachable);
      }
    }

    method UpdateCurrentFrame(f: Frames.Frame) returns (r: Result<()>)
      modifies this
      ensures Updates(StackSpec.UpdateCurrentFrame(old(State()), f), r, State())
    {
      if |framePositions| == 0 {
        return Panic("");
      }
      var idx := framePositions[|framePositions| - 1];
      if idx >= |stack| {
        return Panic("index out of bounds");
      }
      stack := stack[idx := FrameEntry(f)];
      return Ok(());
    }
  }
}
