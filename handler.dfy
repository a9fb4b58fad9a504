/** The word-oriented command handler of `mw/command_handler.py`: the first
    word of a line names a handler operation, the remaining words are its
    arguments, and an unknown word shows the help. */
module Handler {
  import opened Base
  import opened Numeric
  import Stacks
  import Commands

  // ---------------------------------------------------------------------
  // The registry of public operations.

  /** The handler's public operations, in the alphabetical order `dir()` lists them. */
  datatype Op =
    | CBegin | CEnd | Ci | CMills | Co | Crop | Dup | Fadein | Fadeout | Help
    | In | Out | Pop | Roll | Setw | Show | Silence | Split | Stack | Swap

  function Name(op: Op): string {
    match op
    case CBegin => "cbegin" case CEnd => "cend" case Ci => "ci" case CMills => "cmills"
    case Co => "co" case Crop => "crop" case Dup => "dup" case Fadein => "fadein"
    case Fadeout => "fadeout" case Help => "help" case In => "i" case Out => "o"
    case Pop => "pop" case Roll => "roll" case Setw => "setw" case Show => "show"
    case Silence => "silence" case Split => "split" case Stack => "stack" case Swap => "swap"
  }

  const Registry: seq<Op> := [CBegin, CEnd, Ci, CMills, Co, Crop, Dup, Fadein, Fadeout, Help,
                              In, Out, Pop, Roll, Setw, Show, Silence, Split, Stack, Swap]

  /** The fewest words an operation takes after the application: `silence`
      has a duration without a default. */
  function MinArgs(op: Op): nat {
    if op == Silence then 1 else 0
  }

  /** The most words an operation takes after the application. */
  function MaxArgs(op: Op): nat {
    match op
    case CMills => 1 case In => 1 case Out => 1 case Setw => 1 case Roll => 1 case Silence => 1
    case _ => 0
  }

  lemma NameInjective(a: Op, b: Op)
    requires Name(a) == Name(b)
    ensures a == b
  {
  }

  lemma RegistryHoldsAll(op: Op)
    ensures op in Registry
  {
  }

  /** Every public name starts with a lower-case letter. */
  lemma LowerInitial(op: Op)
    ensures |Name(op)| > 0 && 'a' <= Name(op)[0] <= 'z'
  {
    match op
    case CBegin => case CEnd => case Ci => case CMills => case Co => case Crop => case Dup =>
    case Fadein => case Fadeout => case Help => case In => case Out => case Pop => case Roll =>
    case Setw => case Show => case Silence => case Split => case Stack => case Swap =>
  }

  /** The public operation called `name`, if there is one. */
  function Lookup(name: string): Option<Op> {
    FindNamed(name, Registry, Name)
  }

  /** A word finds exactly the operation it names, and no underscore word
      finds a public operation. */
  lemma LookupNames(name: string, op: Op)
    ensures Lookup(name) == Some(op) <==> Name(op) == name
    ensures |name| > 0 && name[0] == '_' ==> Lookup(name).None?
  {
    RegistryHoldsAll(op);
    if Name(op) == name {
      NameInjective(Lookup(name).value, op);
    }
    if |name| > 0 && name[0] == '_' {
      forall o: Op ensures Name(o) != name {
        LowerInitial(o);
      }
    }
  }

  /** The name of `_handle` itself, which the `hasattr` check also finds. */
  const Reenter: string := "_handle"

  /** The words `_handle(app, w)` works on when `w` is one string: indexing and
      slicing a string give its characters, so each character is a word. */
  function Letters(w: string): seq<string> {
    seq(|w|, i requires 0 <= i < |w| => [w[i]])
  }

  /** The operation a line of words runs through `_handle`, with its arguments.
      The word `_handle` with one argument `w` re-enters the dispatcher on the
      characters of `w`; help, an unknown word, another underscore word and
      `_handle` with any other number of arguments run no operation. */
  function Target(words: seq<string>): Option<(Op, seq<string>)>
    decreases if words != [] && words[0] == Reenter then 1 else 0
  {
    if words == [] then None
    else if words[0] == Reenter then
      if |words| == 2 then
        var inner := Letters(words[1]);
        assert inner == [] || |inner[0]| == 1;
        Target(inner)
      else None
    else match Lookup(words[0])
      case Some(op) => Some((op, words[1..]))
      case None => None
  }

  /** A line whose first word is not `_handle` runs the operation that word names. */
  lemma TargetDirect(words: seq<string>)
    requires words != [] && words[0] != Reenter
    ensures Target(words) == if Lookup(words[0]).Some? then Some((Lookup(words[0]).value, words[1..])) else None
  {
  }

  /** Re-entry reaches only the one-letter operations `i` and `o`, each
      argument being one character: `_handle i5` runs `i` with `5`. */
  lemma ReentryReaches(w: string, op: Op, args: seq<string>)
    requires Target([Reenter, w]) == Some((op, args))
    ensures op == In || op == Out
    ensures w != [] && Name(op) == [w[0]] && args == Letters(w[1..])
    ensures forall k :: 0 <= k < |args| ==> |args[k]| == 1
  {
    var inner := Letters(w);
    assert inner != [] && inner[0] == [w[0]];
    LookupNames(inner[0], op);
    assert inner[1..] == Letters(w[1..]);
  }

  /** The line `_handle i5` sets the in point like `i 5`: for any character
      `d`, `_handle` on the word `i` followed by `d` runs `i` with `d`. */
  lemma ReentryExample(d: char)
    ensures Target([Reenter, ['i', d]]) == Some((In, [[d]]))
  {
    var inner := Letters(['i', d]);
    var head := inner[0];
    assert head == "i" && head != Reenter && inner[1..] == [[d]];
    LookupNames(head, In);
    TargetDirect(inner);
  }

  // ---------------------------------------------------------------------
  // Frame updates, as functions of the frame's state.

  /** `cmills(pos)`: the cursor moved or set by `pos`, then clamped into the clip. */
  function NudgeCursor(f: Stacks.FrameState, pos: string): (r: Stacks.FrameState)
    requires |pos| > 0
    ensures 0 <= r.cursor <= |f.segment|
    ensures 0 <= ParseNumeric(f.cursor, pos) <= |f.segment| ==> r.cursor == ParseNumeric(f.cursor, pos)
    ensures ParseNumeric(f.cursor, pos) < 0 ==> r.cursor == 0
    ensures ParseNumeric(f.cursor, pos) > |f.segment| ==> r.cursor == |f.segment|
    ensures r == f.(cursor := r.cursor)
  {
    var c := ParseNumeric(f.cursor, pos);
    var c := if c < |f.segment| then c else |f.segment|;
    f.(cursor := if c > 0 then c else 0)
  }

  /** The point `i` or `o` stores: the cursor when no time (or an empty one) is
      given, otherwise the time applied to the current point or 0. */
  function NewPoint(f: Stacks.FrameState, point: Option<int>, time: Option<string>): int {
    if time.None? || time.value == "" then f.cursor else ParseNumeric(Or(point, 0), time.value)
  }

  /** A missing time marks the cursor; a signed time moves from the current
      point, where an unset or zero point counts as 0; a plain time is absolute. */
  lemma NewPointCases(f: Stacks.FrameState, point: Option<int>, d: int, n: nat)
    ensures NewPoint(f, point, None) == f.cursor
    ensures NewPoint(f, point, Some(DeltaText(d))) == Or(point, 0) + d
    ensures NewPoint(f, point, Some(DigitsText(n))) == n
  {
    ParseNumericDelta(Or(point, 0), d);
    ParseNumericAbsolute(Or(point, 0), n);
  }

  // ---------------------------------------------------------------------
  // What each operation does, as a function of the frame states.

  /** The operation that `_handle` dispatches to, run on the frame states `s`
      with the words `args`: a wrong word count raises TypeError before the
      call; `help`, `show`, `stack`, `setw` and the two fades leave the frames
      as they are. */
  function Apply(op: Op, args: seq<string>, s: seq<Stacks.FrameState>): Stacks.Edited {
    if !(MinArgs(op) <= |args| <= MaxArgs(op)) then Stacks.Edited(Raised(TypeError), s)
    else if EditsTop(op) then ApplyTop(op, args, s)
    else if !KeepsFrames(op) then ApplyStack(op, args, s)
    else Stacks.Edited(Ok, s)
  }

  /** The operations on the top frame. */
  function ApplyTop(op: Op, args: seq<string>, s: seq<Stacks.FrameState>): Stacks.Edited
    requires EditsTop(op) && MinArgs(op) <= |args| <= MaxArgs(op)
  {
    var arg := if args == [] then None else Some(args[0]);
    match op
    case CBegin => Stacks.Edited(Ok, if s == [] then s else Stacks.WithTop(s, s[|s| - 1].(cursor := 0)))
    case CEnd => Stacks.Edited(Ok, if s == [] then s else Stacks.WithTop(s, s[|s| - 1].(cursor := |s[|s| - 1].segment|)))
    case Ci => Stacks.Edited(Ok, if s == [] then s else Stacks.WithTop(s, s[|s| - 1].(inPoint := None)))
    case Co => Stacks.Edited(Ok, if s == [] then s else Stacks.WithTop(s, s[|s| - 1].(outPoint := None)))
    case CMills =>
      var pos := if arg.Some? then arg.value else "0";
      if s == [] then Stacks.Edited(Ok, s)
      else if pos == [] then Stacks.Edited(Raised(IndexError), s)
      else Stacks.Edited(Ok, Stacks.WithTop(s, NudgeCursor(s[|s| - 1], pos)))
    case Crop =>
      if s == [] then Stacks.Edited(Ok, s)
      else
        var (st, f) := Stacks.CropToSelectionState(s[|s| - 1]);
        Stacks.Edited(st, Stacks.WithTop(s, f))
    case In =>
      if s == [] then Stacks.Edited(Ok, s)
      else
        var f := s[|s| - 1];
        Stacks.Edited(Ok, Stacks.WithTop(s, f.(inPoint := Some(NewPoint(f, f.inPoint, arg)))))
    case Out =>
      if s == [] then Stacks.Edited(Ok, s)
      else
        var f := s[|s| - 1];
        Stacks.Edited(Ok, Stacks.WithTop(s, f.(outPoint := Some(NewPoint(f, f.outPoint, arg)))))
    case Silence =>
      if !IsDigitString(args[0]) then Stacks.Edited(NotANumber, s)
      else if s == [] then Stacks.Edited(Ok, s)
      else
        var f := s[|s| - 1];
        var (st, g) := Stacks.InsertSilenceState(f, DigitsValue(args[0]), f.cursor);
        Stacks.Edited(st, Stacks.WithTop(s, g))
  }

  /** The operations that add, drop or reorder frames. */
  function ApplyStack(op: Op, args: seq<string>, s: seq<Stacks.FrameState>): Stacks.Edited
    requires !KeepsFrames(op)
  {
    match op
    case Dup => Stacks.Edited(Ok, if s == [] then s else s + [Stacks.Fresh(s[|s| - 1].segment)])
    case Pop => if s == [] then Stacks.Edited(Raised(IndexError), s) else Stacks.Edited(Ok, s[..|s| - 1])
    case Roll =>
      var count := if args == [] then "1" else args[0];
      if !IsDigitString(count) then Stacks.Edited(NotANumber, s)
      else if s == [] then Stacks.Edited(Raised(ZeroDivisionError), s)
      else Stacks.Edited(Ok, Stacks.RotateLeft(s, DigitsValue(count) % |s|))
    case Split => Stacks.Edited(Ok, if s == [] then s else Stacks.SplitTop(s))
    case Swap => Stacks.Edited(Ok, Stacks.SwapTop(s))
  }

  /** The operations that keep the list of frame objects itself: all but the
      ones that push, drop or reorder frames. */
  predicate KeepsFrames(op: Op) {
    !(op.Dup? || op.Pop? || op.Roll? || op.Split? || op.Swap?)
  }

  /** The operations that edit the top frame and nothing else. */
  predicate EditsTop(op: Op) {
    op.CBegin? || op.CEnd? || op.Ci? || op.Co? || op.CMills? || op.Crop? || op.In? || op.Out? || op.Silence?
  }

  /** The fades (`pass`) and the output-only operations keep the frames; the
      status of `setw`, whose `int(width)` may raise, is a placeholder. */
  lemma OthersKeep(op: Op, args: seq<string>, s: seq<Stacks.FrameState>)
    requires MinArgs(op) <= |args| <= MaxArgs(op) && KeepsFrames(op) && !EditsTop(op)
    ensures Apply(op, args, s) == Stacks.Edited(Ok, s)
  {
  }

  /** An operation that fails leaves every frame as it was: each check comes
      before the first change. */
  lemma FailureChangesNothing(op: Op, args: seq<string>, s: seq<Stacks.FrameState>)
    ensures Apply(op, args, s).status != Ok ==> Apply(op, args, s).states == s
  {
    if MinArgs(op) <= |args| <= MaxArgs(op) && EditsTop(op) {
      TopFailureKeeps(op, args, s);
    }
  }

  lemma TopFailureKeeps(op: Op, args: seq<string>, s: seq<Stacks.FrameState>)
    requires EditsTop(op) && MinArgs(op) <= |args| <= MaxArgs(op)
    ensures ApplyTop(op, args, s).status != Ok ==> ApplyTop(op, args, s).states == s
  {
    if s != [] {
      assert Stacks.WithTop(s, s[|s| - 1]) == s;
    }
  }

  /** Only `dup`, `pop` and `split` change the height of the stack, each by
      one frame; every other operation, and every failure, keeps it. */
  lemma HeightChange(op: Op, args: seq<string>, s: seq<Stacks.FrameState>)
    ensures var r := Apply(op, args, s);
      |r.states| == |s| + (if r.status != Ok || s == [] then 0
                           else if op == Dup || op == Split then 1
                           else if op == Pop then -1
                           else 0)
  {
    var r := Apply(op, args, s);
    if r.status == Ok && s != [] && MinArgs(op) <= |args| <= MaxArgs(op) {
      if op == Split {
        Stacks.SplitTopContents(s);
      } else if op == Swap {
        Stacks.SwapTopContents(s);
      }
    }
  }

  /** The frame-local operations change the top frame and nothing below it. */
  lemma OnlyTopChanges(op: Op, args: seq<string>, s: seq<Stacks.FrameState>)
    requires s != [] && EditsTop(op)
    ensures var r := Apply(op, args, s);
      |r.states| == |s| && r.states[..|s| - 1] == s[..|s| - 1]
  {
  }

  // ---------------------------------------------------------------------
  // The handler.

  /** The outcome of one line of words. */
  datatype Outcome =
    | Ran(op: Op, status: Status)
    | Outside(op: Op)        // `setw`, whose effect is on the display only
    | Private                // any other underscore word: whether it names an attribute is left out
    | Rejected               // `_handle` with other than one argument: TypeError

  class CommandHandler {
    constructor ()
    {
    }

    /** `_handle(app, words)`: run the operation the first word names with the
      other words as arguments, or show the help. The word `_handle` names this
      method itself, so `_handle w` re-enters it on the characters of `w`. */
    method Handle(app: Commands.App, words: seq<string>) returns (out: Outcome)
      requires app.stack.Valid()
      modifies app.stack, app.stack.TopSet()
      ensures app.stack.Valid()
      ensures words == [] ==> out == Ran(Help, Ok)
      ensures words != [] && Lookup(words[0]).Some? ==>
        var op := Lookup(words[0]).value;
        var r := Apply(op, words[1..], old(app.stack.States()));
        && (out.Ran? || out.Outside?) && out.op == op
        && (out.Ran? ==> out.status == r.status)
        && (out.Outside? <==> op == Setw && |words| <= 2)
        && app.stack.States() == r.states
      ensures words != [] && Lookup(words[0]).None? && (|words[0]| == 0 || words[0][0] != '_') ==> out == Ran(Help, Ok)
      ensures out == Rejected <==> words != [] && words[0] == Reenter && |words| != 2
      ensures Target(words).Some? ==>
        var op := Target(words).value.0;
        var args := Target(words).value.1;
        var r := Apply(op, args, old(app.stack.States()));
        && (out.Ran? || out.Outside?) && out.op == op
        && (out.Ran? ==> out.status == r.status)
        && (out.Outside? <==> op == Setw && |args| <= 1)
        && app.stack.States() == r.states
      ensures out == Ran(Help, Ok) || out == Private || out == Rejected ==>
        app.stack.entries == old(app.stack.entries) && app.stack.States() == old(app.stack.States())
      decreases if words != [] && words[0] == Reenter then 1 else 0
    {
      if words != [] && words[0] == Reenter {
        LookupNames(words[0], Help);
        if |words| != 2 {
          return Rejected;
        }
        var inner := Letters(words[1]);
        assert inner == [] || |inner[0]| == 1;
        assert Target(words) == Target(inner);
        out := Handle(app, inner);
        return;
      }
      if words != [] {
        TargetDirect(words);
      }
      out := Dispatch(app, words);
    }

    /** `_handle` on a line whose first word is not `_handle` itself. */
    method Dispatch(app: Commands.App, words: seq<string>) returns (out: Outcome)
      requires app.stack.Valid()
      requires words == [] || words[0] != Reenter
      modifies app.stack, app.stack.TopSet()
      ensures app.stack.Valid()
      ensures words != [] && Lookup(words[0]).Some? ==>
        var op := Lookup(words[0]).value;
        var r := Apply(op, words[1..], old(app.stack.States()));
        && (out.Ran? || out.Outside?) && out.op == op
        && (out.Ran? ==> out.status == r.status)
        && (out.Outside? <==> op == Setw && |words| <= 2)
        && app.stack.States() == r.states
      ensures Target(words).Some? ==>
        var op := Target(words).value.0;
        var r := Apply(op, words[1..], old(app.stack.States()));
        && Lookup(words[0]) == Some(op)
        && (out.Ran? || out.Outside?) && out.op == op
        && (out.Ran? ==> out.status == r.status)
        && (out.Outside? <==> op == Setw && |words| <= 2)
        && app.stack.States() == r.states
      ensures Target(words).None? ==>
        && (words == [] || Lookup(words[0]).None?)
        && (out == Ran(Help, Ok) || out == Private)
        && (out == Private <==> words != [] && |words[0]| > 0 && words[0][0] == '_')
      ensures out == Ran(Help, Ok) || out == Private ==>
        app.stack.entries == old(app.stack.entries) && app.stack.States() == old(app.stack.States())
    {
      if words != [] {
        var op := Lookup(words[0]);
        if op.Some? {
          if op.value == Help && MinArgs(Help) <= |words| - 1 <= MaxArgs(Help) {
            OthersKeep(Help, words[1..], app.stack.States());
          }
          out := Invoke(app, op.value, words[1..]);
          return;
        }
        if |words[0]| > 0 && words[0][0] == '_' {
          return Private;
        }
      }
      return Ran(Help, Ok);
    }

    /** `getattr(self, name)(app, *args)`. */
    method Invoke(app: Commands.App, op: Op, args: seq<string>) returns (out: Outcome)
      requires app.stack.Valid()
      modifies app.stack, app.stack.TopSet()
      ensures app.stack.Valid()
      ensures (out.Ran? || out.Outside?) && out.op == op
      ensures out.Ran? ==> out.status == Apply(op, args, old(app.stack.States())).status
      ensures out.Outside? <==> op == Setw && |args| <= 1
      ensures app.stack.States() == Apply(op, args, old(app.stack.States())).states
      ensures !(MinArgs(op) <= |args| <= MaxArgs(op)) ==>
        out == Ran(op, Raised(TypeError)) && app.stack.entries == old(app.stack.entries)
      ensures KeepsFrames(op) ==> app.stack.entries == old(app.stack.entries)
    {
      if !(MinArgs(op) <= |args| <= MaxArgs(op)) {
        return Ran(op, Raised(TypeError));
      }
      var st;
      if EditsTop(op) {
        st := RunOnTop(app, op, args);
        return Ran(op, st);
      }
      if !KeepsFrames(op) {
        st := RunOnStack(app, op, args);
        return Ran(op, st);
      }
      OthersKeep(op, args, app.stack.States());
      return if op == Setw then Outside(op) else Ran(op, Ok);
    }

    /** The dispatch for the operations that edit the top frame only. */
    method RunOnTop(app: Commands.App, op: Op, args: seq<string>) returns (st: Status)
      requires app.stack.Valid() && EditsTop(op) && MinArgs(op) <= |args| <= MaxArgs(op)
      modifies app.stack.TopSet()
      ensures app.stack.Valid() && app.stack.entries == old(app.stack.entries)
      ensures var r := ApplyTop(op, args, old(app.stack.States()));
        st == r.status && app.stack.States() == r.states
    {
      var arg := if args == [] then None else Some(args[0]);
      st := Ok;
      match op {
        case CBegin => CBegin(app);
        case CEnd => CEnd(app);
        case Ci => ClearIn(app);
        case CMills => st := CMills(app, if arg.Some? then arg.value else "0");
        case Co => ClearOut(app);
        case Crop => st := Crop(app);
        case In => SetIn(app, arg);
        case Out => SetOut(app, arg);
        case Silence => st := Silence(app, args[0]);
      }
    }

    /** The dispatch for the operations that add, drop or reorder frames. */
    method RunOnStack(app: Commands.App, op: Op, args: seq<string>) returns (st: Status)
      requires app.stack.Valid() && !KeepsFrames(op) && MinArgs(op) <= |args| <= MaxArgs(op)
      modifies app.stack, app.stack.TopSet()
      ensures app.stack.Valid()
      ensures var r := ApplyStack(op, args, old(app.stack.States()));
        st == r.status && app.stack.States() == r.states
    {
      st := Ok;
      match op {
        case Dup => Dup(app);
        case Pop => st := Pop(app);
        case Roll => st := Roll(app, if args == [] then "1" else args[0]);
        case Split => Split(app);
        case Swap => Swap(app);
      }
    }

    /** `cmills(pos)`: move or set the top cursor, then clamp it into the clip.
      On an empty stack nothing happens; otherwise an empty `pos` raises
      IndexError before anything changes. */
    method CMills(app: Commands.App, pos: string) returns (st: Status)
      requires app.stack.Valid()
      modifies app.stack.TopSet()
      ensures app.stack.Valid() && app.stack.entries == old(app.stack.entries)
      ensures st == Ok || st == Raised(IndexError)
      ensures app.stack.entries != [] && pos == [] <==> st == Raised(IndexError)
      ensures var s := old(app.stack.States());
        app.stack.States() == if s == [] || pos == [] then s else Stacks.WithTop(s, NudgeCursor(s[|s| - 1], pos))
    {
      var top := app.stack.Top();
      if top.None? {
        return Ok;
      }
      if pos == [] {
        return Raised(IndexError);
      }
      var t := top.value;
      ghost var before := app.stack.States();
      ghost var oldTop := t.State();
      t.cursor := ParseNumeric(t.cursor, pos);
      t.cursor := if t.cursor < |t.segment| then t.cursor else |t.segment|;
      t.cursor := if t.cursor > 0 then t.cursor else 0;
      assert t.State() == NudgeCursor(oldTop, pos);
      Commands.StatesAfterTop(app.stack, before);
      return Ok;
    }

    /** `cbegin`: the top cursor to the start of the clip. */
    method CBegin(app: Commands.App)
      requires app.stack.Valid()
      modifies app.stack.TopSet()
      ensures app.stack.Valid() && app.stack.entries == old(app.stack.entries)
      ensures var s := old(app.stack.States());
        app.stack.States() == if s == [] then s else Stacks.WithTop(s, s[|s| - 1].(cursor := 0))
    {
      var top := app.stack.Top();
      if top.Some? {
        ghost var before := app.stack.States();
        top.value.cursor := 0;
        Commands.StatesAfterTop(app.stack, before);
      }
    }

    /** `cend`: the top cursor to the end of the clip. */
    method CEnd(app: Commands.App)
      requires app.stack.Valid()
      modifies app.stack.TopSet()
      ensures app.stack.Valid() && app.stack.entries == old(app.stack.entries)
      ensures var s := old(app.stack.States());
        app.stack.States() == if s == [] then s else Stacks.WithTop(s, s[|s| - 1].(cursor := |s[|s| - 1].segment|))
    {
      var top := app.stack.Top();
      if top.Some? {
        ghost var before := app.stack.States();
        top.value.cursor := |top.value.segment|;
        Commands.StatesAfterTop(app.stack, before);
      }
    }

    /** `i(time)`: store the new in point of the top frame. */
    method SetIn(app: Commands.App, time: Option<string>)
      requires app.stack.Valid()
      modifies app.stack.TopSet()
      ensures app.stack.Valid() && app.stack.entries == old(app.stack.entries)
      ensures var s := old(app.stack.States());
        app.stack.States() == if s == [] then s
          else var f := s[|s| - 1]; Stacks.WithTop(s, f.(inPoint := Some(NewPoint(f, f.inPoint, time))))
    {
      var top := app.stack.Top();
      if top.Some? {
        var t := top.value;
        ghost var before := app.stack.States();
        var newTime := t.cursor;
        if time.Some? && time.value != "" {
          newTime := ParseNumeric(Or(t.inPoint, 0), time.value);
        }
        t.inPoint := Some(newTime);
        Commands.StatesAfterTop(app.stack, before);
      }
    }

    /** `o(time)`: store the new out point of the top frame. */
    method SetOut(app: Commands.App, time: Option<string>)
      requires app.stack.Valid()
      modifies app.stack.TopSet()
      ensures app.stack.Valid() && app.stack.entries == old(app.stack.entries)
      ensures var s := old(app.stack.States());
        app.stack.States() == if s == [] then s
          else var f := s[|s| - 1]; Stacks.WithTop(s, f.(outPoint := Some(NewPoint(f, f.outPoint, time))))
    {
      var top := app.stack.Top();
      if top.Some? {
        var t := top.value;
        ghost var before := app.stack.States();
        var newTime := t.cursor;
        if time.Some? && time.value != "" {
          newTime := ParseNumeric(Or(t.outPoint, 0), time.value);
        }
        t.outPoint := Some(newTime);
        Commands.StatesAfterTop(app.stack, before);
      }
    }

    /** `ci`: forget the top frame's in point. */
    method ClearIn(app: Commands.App)
      requires app.stack.Valid()
      modifies app.stack.TopSet()
      ensures app.stack.Valid() && app.stack.entries == old(app.stack.entries)
      ensures var s := old(app.stack.States());
        app.stack.States() == if s == [] then s else Stacks.WithTop(s, s[|s| - 1].(inPoint := None))
    {
      var top := app.stack.Top();
      if top.Some? {
        ghost var before := app.stack.States();
        top.value.inPoint := None;
        Commands.StatesAfterTop(app.stack, before);
      }
    }

    /** `co`: forget the top frame's out point. */
    method ClearOut(app: Commands.App)
      requires app.stack.Valid()
      modifies app.stack.TopSet()
      ensures app.stack.Valid() && app.stack.entries == old(app.stack.entries)
      ensures var s := old(app.stack.States());
        app.stack.States() == if s == [] then s else Stacks.WithTop(s, s[|s| - 1].(outPoint := None))
    {
      var top := app.stack.Top();
      if top.Some? {
        ghost var before := app.stack.States();
        top.value.outPoint := None;
        Commands.StatesAfterTop(app.stack, before);
      }
    }

    /** `crop`: crop the top clip to its selection. */
    method Crop(app: Commands.App) returns (st: Status)
      requires app.stack.Valid()
      modifies app.stack.TopSet()
      ensures app.stack.Valid() && app.stack.entries == old(app.stack.entries)
      ensures var s := old(app.stack.States());
        if s == [] then st == Ok && app.stack.States() == s
        else
          var (t, f) := Stacks.CropToSelectionState(s[|s| - 1]);
          st == t && app.stack.States() == Stacks.WithTop(s, f)
    {
      var top := app.stack.Top();
      if top.None? {
        return Ok;
      }
      ghost var before := app.stack.States();
      st := top.value.CropToSelection();
      Commands.StatesAfterTop(app.stack, before);
    }

    /** `silence(dur)`: insert `dur` milliseconds of silence at the top cursor;
      a duration that is not all digits changes nothing. */
    method Silence(app: Commands.App, dur: string) returns (st: Status)
      requires app.stack.Valid()
      modifies app.stack.TopSet()
      ensures app.stack.Valid() && app.stack.entries == old(app.stack.entries)
      ensures var s := old(app.stack.States());
        if !IsDigitString(dur) then st == NotANumber && app.stack.States() == s
        else if s == [] then st == Ok && app.stack.States() == s
        else
          var f := s[|s| - 1];
          var (t, g) := Stacks.InsertSilenceState(f, DigitsValue(dur), f.cursor);
          st == t && app.stack.States() == Stacks.WithTop(s, g)
    {
      if !IsDigitString(dur) {
        return NotANumber;
      }
      var top := app.stack.Top();
      if top.None? {
        return Ok;
      }
      ghost var before := app.stack.States();
      var at := top.value.cursor;
      st := top.value.InsertSilence(DigitsValue(dur), at);
      Commands.StatesAfterTop(app.stack, before);
    }

    /** `dup`: push a fresh frame holding a copy of the top clip. */
    method Dup(app: Commands.App)
      requires app.stack.Valid()
      modifies app.stack
      ensures app.stack.Valid()
      ensures old(app.stack.entries) == [] ==> app.stack.entries == old(app.stack.entries)
      ensures var s := old(app.stack.States());
        app.stack.States() == if s == [] then s else s + [Stacks.Fresh(s[|s| - 1].segment)]
    {
      var top := app.stack.Top();
      if top.Some? {
        app.stack.PushSound(top.value.segment);
      }
    }

    /** `swap`: exchange the top two entries. */
    method Swap(app: Commands.App)
      requires app.stack.Valid()
      modifies app.stack
      ensures app.stack.Valid()
      ensures app.stack.entries == Stacks.SwapTop(old(app.stack.entries))
      ensures app.stack.States() == Stacks.SwapTop(old(app.stack.States()))
    {
      var e := app.stack.entries;
      if |e| > 1 {
        app.stack.entries := e[..|e| - 2] + [e[|e| - 1], e[|e| - 2]];
        Commands.DistinctSwapTop(e);
      }
      Stacks.StatesOfSwapTop(e);
    }

    /** `pop`: drop the top entry; IndexError on an empty stack. */
    method Pop(app: Commands.App) returns (st: Status)
      requires app.stack.Valid()
      modifies app.stack
      ensures app.stack.Valid()
      ensures st == Ok || st == Raised(IndexError)
      ensures old(app.stack.entries) == [] <==> st == Raised(IndexError)
      ensures st == Raised(IndexError) ==> app.stack.entries == old(app.stack.entries)
      ensures st == Ok ==> app.stack.entries == old(app.stack.entries)[..|old(app.stack.entries)| - 1]
      ensures var s := old(app.stack.States());
        app.stack.States() == if st == Ok then s[..|s| - 1] else s
    {
      var e := app.stack.entries;
      if e == [] {
        return Raised(IndexError);
      }
      app.stack.entries := e[..|e| - 1];
      Stacks.StatesOfPrefix(e, |e| - 1);
      return Ok;
    }

    /** `roll(count)`: rotate left by `count mod n`, the bottom entries moving to
      the top. Only a plain digit count is accepted; an empty stack divides by zero. */
    method Roll(app: Commands.App, count: string) returns (st: Status)
      requires app.stack.Valid()
      modifies app.stack
      ensures app.stack.Valid()
      ensures !IsDigitString(count) ==> st == NotANumber
      ensures IsDigitString(count) && old(app.stack.entries) == [] ==> st == Raised(ZeroDivisionError)
      ensures st != Ok ==> app.stack.entries == old(app.stack.entries)
      ensures IsDigitString(count) && old(app.stack.entries) != [] ==>
        var k := DigitsValue(count) % |old(app.stack.entries)|;
        st == Ok && app.stack.entries == Stacks.RotateLeft(old(app.stack.entries), k)
      ensures var s := old(app.stack.States());
        app.stack.States() == if st == Ok then Stacks.RotateLeft(s, DigitsValue(count) % |s|) else s
    {
      if !IsDigitString(count) {
        return NotANumber;
      }
      var e := app.stack.entries;
      if e == [] {
        return Raised(ZeroDivisionError);
      }
      RotateEntries(app.stack, DigitsValue(count) % |e|);
      return Ok;
    }

    /** `entries[num:] + entries[0:num]`: the first `num` entries move to the
      top, and the frames go with them. */
    static method RotateEntries(stack: Stacks.Stack, num: nat)
      requires stack.Valid() && num <= |stack.entries|
      modifies stack
      ensures stack.Valid()
      ensures stack.entries == Stacks.RotateLeft(old(stack.entries), num)
      ensures stack.States() == Stacks.RotateLeft(old(stack.States()), num)
    {
      var e := stack.entries;
      stack.entries := e[num..] + e[0..num];
      assert e[0..num] == e[..num];
      Commands.DistinctRotate(e, |e| - num);
      assert e[|e| - (|e| - num)..] == e[num..];
      Stacks.StatesUnchanged(e);
      Stacks.StatesOfRotateLeft(e, num);
    }

    /** `split`: split the top clip at its cursor when there is one. */
    method Split(app: Commands.App)
      requires app.stack.Valid()
      modifies app.stack
      ensures app.stack.Valid()
      ensures old(app.stack.entries) == [] ==> app.stack.entries == old(app.stack.entries)
      ensures var s := old(app.stack.States());
        app.stack.States() == if s == [] then s else Stacks.SplitTop(s)
    {
      if app.stack.Top().Some? {
        var _ := app.stack.Split();
      }
    }
  }

  /** The two `roll` commands turn the stack in opposite directions: by the
      same count, one undoes the other. */
  lemma RollsOpposite<T>(s: seq<T>, count: nat)
    requires s != []
    ensures var k := count % |s|;
      && Stacks.RotateLeft(Stacks.RotateRight(s, k), k) == s
      && Stacks.RotateRight(Stacks.RotateLeft(s, k), k) == s
    ensures |s| > 1 ==> Stacks.RotateLeft(s, 1)[|s| - 1] == s[0] && Stacks.RotateRight(s, 1)[0] == s[|s| - 1]
  {
    Stacks.RotateInverse(s, count % |s|);
    if |s| > 1 {
      Stacks.RotateRightClosed(s, 1);
    }
  }
}
