/** The line-oriented command front end of `mw/commands.py`: a parsed line
    first resolves the selection bounds against the top frame, then names one
    of the handler's public operations, which runs with the line's arguments. */
module Commands {
  import opened Base
  import opened Numeric
  import opened Grammar
  import Stacks

  // ---------------------------------------------------------------------
  // The registry of public operations.

  /** The handler's public operations, in the alphabetical order `dir()` lists them. */
  datatype Op =
    | Append | Bloop | Bounce | Ci | Co | Crop | Dup | Export | Fadein | Fadeout
    | Help | Length | License | Loop | New | Normalize | Play | Pop | Prepend | Q
    | Roll | Setw | Show | Silence | Split | Stack | Swap

  function Name(op: Op): string {
    match op
    case Append => "append" case Bloop => "bloop" case Bounce => "bounce"
    case Ci => "ci" case Co => "co" case Crop => "crop" case Dup => "dup"
    case Export => "export" case Fadein => "fadein" case Fadeout => "fadeout"
    case Help => "help" case Length => "length" case License => "license"
    case Loop => "loop" case New => "new" case Normalize => "normalize"
    case Play => "play" case Pop => "pop" case Prepend => "prepend" case Q => "q"
    case Roll => "roll" case Setw => "setw" case Show => "show"
    case Silence => "silence" case Split => "split" case Stack => "stack"
    case Swap => "swap"
  }

  const Registry: seq<Op> := [Append, Bloop, Bounce, Ci, Co, Crop, Dup, Export, Fadein, Fadeout,
                              Help, Length, License, Loop, New, Normalize, Play, Pop, Prepend, Q,
                              Roll, Setw, Show, Silence, Split, Stack, Swap]

  /** How many words an operation takes after the application: the ones with a
      defaulted parameter take at most one, the others none. */
  function MaxArgs(op: Op): nat {
    match op
    case Setw => 1 case Roll => 1 case New => 1 case Loop => 1 case Normalize => 1 case Export => 1
    case _ => 0
  }

  /** Reads the operation back from the first two letters of its name and,
      for the two fades, its length. */
  function OpOfName(s: string): Op {
    if |s| < 2 then Q
    else if s[0] == 'a' then Append
    else if s[0] == 'b' then (if s[1] == 'l' then Bloop else Bounce)
    else if s[0] == 'c' then (if s[1] == 'i' then Ci else if s[1] == 'o' then Co else Crop)
    else if s[0] == 'd' then Dup
    else if s[0] == 'e' then Export
    else if s[0] == 'f' then (if |s| == 6 then Fadein else Fadeout)
    else if s[0] == 'h' then Help
    else if s[0] == 'l' then (if s[1] == 'e' then Length else if s[1] == 'i' then License else Loop)
    else if s[0] == 'n' then (if s[1] == 'e' then New else Normalize)
    else if s[0] == 'p' then (if s[1] == 'l' then Play else if s[1] == 'o' then Pop else Prepend)
    else if s[0] == 'r' then Roll
    else if s[1] == 'e' then Setw
    else if s[1] == 'h' then Show
    else if s[1] == 'i' then Silence
    else if s[1] == 'p' then Split
    else if s[1] == 't' then Stack
    else Swap
  }

  lemma NameRecovered(op: Op)
    ensures OpOfName(Name(op)) == op
  {
    match op
    case Append => case Bloop => case Bounce => case Ci => case Co => case Crop => case Dup =>
    case Export => case Fadein => case Fadeout => case Help => case Length => case License =>
    case Loop => case New => case Normalize => case Play => case Pop => case Prepend => case Q =>
    case Roll => case Setw => case Show => case Silence => case Split => case Stack => case Swap =>
  }

  lemma NameInjective(a: Op, b: Op)
    requires Name(a) == Name(b)
    ensures a == b
  {
    NameRecovered(a);
    NameRecovered(b);
  }

  /** Every public name starts with a lower-case letter. */
  lemma LowerInitial(op: Op)
    ensures |Name(op)| > 0 && 'a' <= Name(op)[0] <= 'z'
  {
    match op
    case Append => case Bloop => case Bounce => case Ci => case Co => case Crop => case Dup =>
    case Export => case Fadein => case Fadeout => case Help => case Length => case License =>
    case Loop => case New => case Normalize => case Play => case Pop => case Prepend => case Q =>
    case Roll => case Setw => case Show => case Silence => case Split => case Stack => case Swap =>
  }

  lemma RegistryHoldsAll(op: Op)
    ensures op in Registry
  {
  }

  /** `_available_commands()`: the public names. */
  function AvailableCommands(): (r: seq<string>)
    ensures |r| == |Registry|
    ensures forall i :: 0 <= i < |r| ==> r[i] == Name(Registry[i])
  {
    seq(|Registry|, i requires 0 <= i < |Registry| => Name(Registry[i]))
  }

  /** Python's `<` on strings: code point by code point, a proper prefix first. */
  predicate Below(a: string, b: string) {
    if a == [] then b != []
    else if b == [] then false
    else if a[0] != b[0] then a[0] < b[0]
    else Below(a[1..], b[1..])
  }

  lemma {:induction false} BelowTransitive(a: string, b: string, c: string)
    requires Below(a, b) && Below(b, c)
    ensures Below(a, c)
  {
    if a != [] && b != [] && c != [] && a[0] == b[0] && b[0] == c[0] {
      BelowTransitive(a[1..], b[1..], c[1..]);
    }
  }

  /** Two strings that agree before position `k` and differ there are
      ordered by their letters at `k`. */
  lemma {:induction false} BelowAt(a: string, b: string, k: nat)
    requires k < |a| && k < |b| && a[k] < b[k]
    requires forall m :: 0 <= m < k ==> a[m] == b[m]
    ensures Below(a, b)
  {
    if k > 0 {
      assert a[0] == b[0];
      BelowAt(a[1..], b[1..], k - 1);
    }
  }

  lemma {:induction false} BelowIrreflexive(a: string)
    ensures !Below(a, a)
  {
    if a != [] {
      BelowIrreflexive(a[1..]);
    }
  }

  /** `dir()` lists the names in increasing order, so they are distinct, and
      none of them is private. */
  lemma AvailableSorted()
    ensures forall i, j :: 0 <= i < j < |AvailableCommands()| ==> Below(AvailableCommands()[i], AvailableCommands()[j])
    ensures forall i, j :: 0 <= i < j < |AvailableCommands()| ==> AvailableCommands()[i] != AvailableCommands()[j]
    ensures forall i :: 0 <= i < |AvailableCommands()| ==>
      |AvailableCommands()[i]| > 0 && AvailableCommands()[i][0] != '_'
  {
    var r := AvailableCommands();
    AdjacentBelow();
    ChainBelow(r);
    forall i, j | 0 <= i < j < |r|
      ensures r[i] != r[j]
    {
      BelowIrreflexive(r[i]);
    }
    forall i | 0 <= i < |r|
      ensures |r[i]| > 0 && r[i][0] != '_'
    {
      LowerInitial(Registry[i]);
    }
  }

  /** A list whose neighbours are in order is in order throughout. */
  lemma ChainBelow(r: seq<string>)
    requires forall i :: 0 <= i < |r| - 1 ==> Below(r[i], r[i + 1])
    ensures forall i, j :: 0 <= i < j < |r| ==> Below(r[i], r[j])
  {
    forall i, j | 0 <= i < j < |r|
      ensures Below(r[i], r[j])
    {
      var m := i + 1;
      while m < j
        invariant i < m <= j && Below(r[i], r[m])
      {
        BelowTransitive(r[i], r[m], r[m + 1]);
        m := m + 1;
      }
    }
  }

  lemma AdjacentBelow()
    ensures forall i :: 0 <= i < |AvailableCommands()| - 1 ==> Below(AvailableCommands()[i], AvailableCommands()[i + 1])
  {
    var r := AvailableCommands();
    forall i | 0 <= i < |r| - 1
      ensures Below(r[i], r[i + 1])
    {
      AdjacentAt(i);
    }
  }

  lemma AdjacentAt(i: int)
    requires 0 <= i < |Registry| - 1
    ensures Below(Name(Registry[i]), Name(Registry[i + 1]))
  {
    if i < 5 {
      AdjacentIn0(i);
    } else if i < 9 {
      AdjacentIn1(i);
    } else if i < 13 {
      AdjacentIn2(i);
    } else if i < 17 {
      AdjacentIn3(i);
    } else if i < 21 {
      AdjacentIn4(i);
    } else if i < 24 {
      AdjacentIn5(i);
    } else {
      AdjacentIn6(i);
    }
  }

  lemma AdjacentIn0(i: int)
    requires 0 <= i < 5
    ensures Below(Name(Registry[i]), Name(Registry[i + 1]))
  {
    if i == 0 {
      assert Registry[i] == Append && Registry[i + 1] == Bloop;
      BelowAt(Name(Append), Name(Bloop), 0);
    } else if i == 1 {
      assert Registry[i] == Bloop && Registry[i + 1] == Bounce;
      BelowAt(Name(Bloop), Name(Bounce), 1);
    } else if i == 2 {
      assert Registry[i] == Bounce && Registry[i + 1] == Ci;
      BelowAt(Name(Bounce), Name(Ci), 0);
    } else if i == 3 {
      assert Registry[i] == Ci && Registry[i + 1] == Co;
      BelowAt(Name(Ci), Name(Co), 1);
    } else {
      assert Registry[i] == Co && Registry[i + 1] == Crop;
      BelowAt(Name(Co), Name(Crop), 1);
    }
  }

  lemma AdjacentIn1(i: int)
    requires 5 <= i < 9
    ensures Below(Name(Registry[i]), Name(Registry[i + 1]))
  {
    if i == 5 {
      assert Registry[i] == Crop && Registry[i + 1] == Dup;
      BelowAt(Name(Crop), Name(Dup), 0);
    } else if i == 6 {
      assert Registry[i] == Dup && Registry[i + 1] == Export;
      BelowAt(Name(Dup), Name(Export), 0);
    } else if i == 7 {
      assert Registry[i] == Export && Registry[i + 1] == Fadein;
      BelowAt(Name(Export), Name(Fadein), 0);
    } else {
      assert Registry[i] == Fadein && Registry[i + 1] == Fadeout;
      BelowAt(Name(Fadein), Name(Fadeout), 4);
    }
  }

  lemma AdjacentIn2(i: int)
    requires 9 <= i < 13
    ensures Below(Name(Registry[i]), Name(Registry[i + 1]))
  {
    if i == 9 {
      assert Registry[i] == Fadeout && Registry[i + 1] == Help;
      BelowAt(Name(Fadeout), Name(Help), 0);
    } else if i == 10 {
      assert Registry[i] == Help && Registry[i + 1] == Length;
      BelowAt(Name(Help), Name(Length), 0);
    } else if i == 11 {
      assert Registry[i] == Length && Registry[i + 1] == License;
      BelowAt(Name(Length), Name(License), 1);
    } else {
      assert Registry[i] == License && Registry[i + 1] == Loop;
      BelowAt(Name(License), Name(Loop), 1);
    }
  }

  lemma AdjacentIn3(i: int)
    requires 13 <= i < 17
    ensures Below(Name(Registry[i]), Name(Registry[i + 1]))
  {
    if i == 13 {
      assert Registry[i] == Loop && Registry[i + 1] == New;
      BelowAt(Name(Loop), Name(New), 0);
    } else if i == 14 {
      assert Registry[i] == New && Registry[i + 1] == Normalize;
      BelowAt(Name(New), Name(Normalize), 1);
    } else if i == 15 {
      assert Registry[i] == Normalize && Registry[i + 1] == Play;
      BelowAt(Name(Normalize), Name(Play), 0);
    } else {
      assert Registry[i] == Play && Registry[i + 1] == Pop;
      BelowAt(Name(Play), Name(Pop), 1);
    }
  }

  lemma AdjacentIn4(i: int)
    requires 17 <= i < 21
    ensures Below(Name(Registry[i]), Name(Registry[i + 1]))
  {
    if i == 17 {
      assert Registry[i] == Pop && Registry[i + 1] == Prepend;
      BelowAt(Name(Pop), Name(Prepend), 1);
    } else if i == 18 {
      assert Registry[i] == Prepend && Registry[i + 1] == Q;
      BelowAt(Name(Prepend), Name(Q), 0);
    } else if i == 19 {
      assert Registry[i] == Q && Registry[i + 1] == Roll;
      BelowAt(Name(Q), Name(Roll), 0);
    } else {
      assert Registry[i] == Roll && Registry[i + 1] == Setw;
      BelowAt(Name(Roll), Name(Setw), 0);
    }
  }

  lemma AdjacentIn5(i: int)
    requires 21 <= i < 24
    ensures Below(Name(Registry[i]), Name(Registry[i + 1]))
  {
    if i == 21 {
      assert Registry[i] == Setw && Registry[i + 1] == Show;
      BelowAt(Name(Setw), Name(Show), 1);
    } else if i == 22 {
      assert Registry[i] == Show && Registry[i + 1] == Silence;
      BelowAt(Name(Show), Name(Silence), 1);
    } else {
      assert Registry[i] == Silence && Registry[i + 1] == Split;
      BelowAt(Name(Silence), Name(Split), 1);
    }
  }

  lemma AdjacentIn6(i: int)
    requires 24 <= i < 26
    ensures Below(Name(Registry[i]), Name(Registry[i + 1]))
  {
    if i == 24 {
      assert Registry[i] == Split && Registry[i + 1] == Stack;
      BelowAt(Name(Split), Name(Stack), 1);
    } else {
      assert Registry[i] == Stack && Registry[i + 1] == Swap;
      BelowAt(Name(Stack), Name(Swap), 1);
    }
  }

  /** The public operation called `name`, if there is one. */
  function Lookup(name: string): Option<Op> {
    FindNamed(name, Registry, Name)
  }

  /** A name finds exactly the operation it names; every other word, the
      underscore names among them, finds nothing. */
  lemma LookupNames(name: string, op: Op)
    ensures Lookup(name) == Some(op) <==> Name(op) == name
    ensures Lookup(name).None? <==> name !in AvailableCommands()
    ensures |name| > 0 && name[0] == '_' ==> Lookup(name).None?
  {
    LookupOf(name, op);
    LookupAvailable(name);
    if |name| > 0 && name[0] == '_' {
      if Lookup(name).Some? {
        LowerInitial(Lookup(name).value);
      }
    }
  }

  lemma LookupOf(name: string, op: Op)
    ensures Lookup(name) == Some(op) <==> Name(op) == name
  {
    RegistryHoldsAll(op);
    if Name(op) == name {
      NameInjective(Lookup(name).value, op);
    }
  }

  lemma LookupAvailable(name: string)
    ensures Lookup(name).None? <==> name !in AvailableCommands()
  {
    if Lookup(name).Some? {
      AvailableHasName(Lookup(name).value);
    }
    if name in AvailableCommands() {
      var op := AvailableIsName(name);
      RegistryHoldsAll(op);
    }
  }

  // ---------------------------------------------------------------------
  // Tab completion.

  /** The names in `names` that start with `partial`, in their order. */
  function Candidates(partial: string, names: seq<string>): (r: seq<string>)
    ensures forall x :: x in r <==> x in names && partial <= x
    ensures |r| <= |names|
  {
    if names == [] then []
    else (if partial <= names[0] then [names[0]] else []) + Candidates(partial, names[1..])
  }

  /** Filtering distributes over concatenation, so it keeps the order of `names`. */
  lemma {:induction false} CandidatesAppend(partial: string, a: seq<string>, b: seq<string>)
    ensures Candidates(partial, a + b) == Candidates(partial, a) + Candidates(partial, b)
  {
    if a == [] {
      assert a + b == b;
    } else {
      assert (a + b)[1..] == a[1..] + b;
      CandidatesAppend(partial, a[1..], b);
    }
  }

  /** A matching name at position `j` is the candidate numbered by how many
      names before `j` match. */
  lemma CandidatesAt(partial: string, names: seq<string>, j: int)
    requires 0 <= j < |names| && partial <= names[j]
    ensures var k := |Candidates(partial, names[..j])|;
      k < |Candidates(partial, names)| && Candidates(partial, names)[k] == names[j]
  {
    assert names == names[..j] + ([names[j]] + names[j + 1..]);
    CandidatesAppend(partial, names[..j], [names[j]] + names[j + 1..]);
    assert ([names[j]] + names[j + 1..])[1..] == names[j + 1..];
  }

  /** Conversely, every candidate comes from such a position. */
  lemma {:induction false} CandidateFrom(partial: string, names: seq<string>, k: int) returns (j: int)
    requires 0 <= k < |Candidates(partial, names)|
    ensures 0 <= j < |names| && partial <= names[j]
    ensures |Candidates(partial, names[..j])| == k && Candidates(partial, names)[k] == names[j]
  {
    var c := Candidates(partial, names);
    if partial <= names[0] && k == 0 {
      j := 0;
      assert names[..0] == [];
    } else {
      var h := if partial <= names[0] then 1 else 0;
      var j' := CandidateFrom(partial, names[1..], k - h);
      j := j' + 1;
      assert names[..j] == [names[0]] + names[1..][..j'];
      CandidatesAppend(partial, [names[0]], names[1..][..j']);
      assert [names[0]][1..] == [];
    }
  }

  datatype Completion = Completed(name: string) | NoCompletion | CompletionRaised(error: PyError)

  /** `_impl_autocomplete(partial, state)`: the `state`-th public name that
      starts with `partial` (Python indexing, so a negative `state` counts from
      the end), nothing when no name matches, IndexError past the end. */
  function Complete(partial: string, state: int): Completion {
    var possible := Candidates(partial, AvailableCommands());
    if |possible| == 0 then NoCompletion
    else if -|possible| <= state < |possible| then
      Completed(possible[if state < 0 then |possible| + state else state])
    else CompletionRaised(IndexError)
  }

  /** A completion is always a public name extending `partial`; there is none
      exactly when no public name extends it; and a state inside the matches
      always completes. */
  lemma CompleteSound(partial: string, state: int)
    ensures Complete(partial, state).Completed? ==>
      var n := Complete(partial, state).name;
      n in AvailableCommands() && partial <= n && Lookup(n).Some?
    ensures Complete(partial, state) == NoCompletion <==>
      forall op: Op :: !(partial <= Name(op))
    ensures 0 <= state < |Candidates(partial, AvailableCommands())| ==> Complete(partial, state).Completed?
  {
    var possible := Candidates(partial, AvailableCommands());
    if Complete(partial, state).Completed? {
      var n := Complete(partial, state).name;
      assert n in possible;
      var op := AvailableIsName(n);
      LookupNames(n, op);
    }
    if |possible| > 0 {
      var op := AvailableIsName(possible[0]);
    } else {
      forall op: Op ensures !(partial <= Name(op)) {
        AvailableHasName(op);
      }
    }
  }

  /** Completion follows the registry's order: state `k` completes to the
      `k`-th public name that starts with `partial`, counting from 0. */
  lemma CompleteInOrder(partial: string, j: int)
    requires 0 <= j < |Registry| && partial <= Name(Registry[j])
    ensures Complete(partial, |Candidates(partial, AvailableCommands()[..j])|) == Completed(Name(Registry[j]))
  {
    CandidatesAt(partial, AvailableCommands(), j);
  }

  /** And every completion for a state inside the matches is such a name. */
  lemma CompleteFrom(partial: string, k: int) returns (j: int)
    requires 0 <= k < |Candidates(partial, AvailableCommands())|
    ensures 0 <= j < |Registry| && partial <= Name(Registry[j])
    ensures |Candidates(partial, AvailableCommands()[..j])| == k
    ensures Complete(partial, k) == Completed(Name(Registry[j]))
  {
    j := CandidateFrom(partial, AvailableCommands(), k);
  }

  lemma AvailableHasName(op: Op)
    ensures Name(op) in AvailableCommands()
  {
    RegistryHoldsAll(op);
    var i :| 0 <= i < |Registry| && Registry[i] == op;
    assert AvailableCommands()[i] == Name(op);
  }

  lemma AvailableIsName(x: string) returns (op: Op)
    requires x in AvailableCommands()
    ensures Name(op) == x
  {
    var i :| 0 <= i < |Registry| && AvailableCommands()[i] == x;
    op := Registry[i];
  }

  // ---------------------------------------------------------------------
  // Selection bounds.

  /** The in bound before normalization: the line's in address, else the
      frame's in point, with an unset or zero point read as 0. */
  function RawIn(cmd: Command, top: Stacks.FrameState): int {
    if cmd.inAddr.Some? then cmd.inAddr.value else Or(top.inPoint, 0)
  }

  /** The out bound before normalization: the line's out address, else the
      frame's out point, with an unset or zero point read as -1. */
  function RawOut(cmd: Command, top: Stacks.FrameState): int {
    if cmd.outAddr.Some? then cmd.outAddr.value else Or(top.outPoint, -1)
  }

  /** `_effective_in` and `_effective_out` after a line: both unset on an empty
      stack; otherwise the normalized raw bounds, exchanged when reversed.
      `norm` stands for the application's `normalize_command_time`. */
  function EffectiveBounds(cmd: Command, top: Option<Stacks.FrameState>, norm: int -> int): (Option<int>, Option<int>) {
    if top.None? then (None, None)
    else
      var i := norm(RawIn(cmd, top.value));
      var o := norm(RawOut(cmd, top.value));
      if o < i then (Some(o), Some(i)) else (Some(i), Some(o))
  }

  /** The top frame after the line's explicit addresses are stored: each
      address given is stored normalized, before any exchange. */
  function PersistPoints(f: Stacks.FrameState, cmd: Command, norm: int -> int): Stacks.FrameState {
    f.(inPoint := if cmd.inAddr.Some? then Some(norm(cmd.inAddr.value)) else f.inPoint,
       outPoint := if cmd.outAddr.Some? then Some(norm(cmd.outAddr.value)) else f.outPoint)
  }

  /** The state of the top frame, if any. */
  function TopState(states: seq<Stacks.FrameState>): (r: Option<Stacks.FrameState>)
    ensures r.None? <==> states == []
  {
    if states == [] then None else Some(states[|states| - 1])
  }

  /** The stack's frame states after the line's addresses are stored in the top frame. */
  function PersistTop(states: seq<Stacks.FrameState>, cmd: Command, norm: int -> int): (r: seq<Stacks.FrameState>)
    ensures |r| == |states|
  {
    if states == [] then []
    else states[..|states| - 1] + [PersistPoints(states[|states| - 1], cmd, norm)]
  }

  /** The bounds are unset exactly on an empty stack; otherwise they are the two
      normalized raw bounds in increasing order. */
  lemma BoundsOrdered(cmd: Command, top: Option<Stacks.FrameState>, norm: int -> int)
    ensures var (i, o) := EffectiveBounds(cmd, top, norm);
      && (top.None? <==> i.None?)
      && (top.None? <==> o.None?)
      && (top.Some? ==>
            && i.value <= o.value
            && multiset{i.value, o.value} == multiset{norm(RawIn(cmd, top.value)), norm(RawOut(cmd, top.value))})
  {
  }

  /** What `normalize_command_time` is assumed to guarantee: every time lands
      inside a clip of length `length`. */
  ghost predicate NormalizesInto(norm: int -> int, length: int) {
    forall t :: 0 <= norm(t) <= length
  }

  /** Under that assumption both bounds lie inside the clip. */
  lemma BoundsInClip(cmd: Command, top: Stacks.FrameState, norm: int -> int)
    requires NormalizesInto(norm, |top.segment|)
    ensures var (i, o) := EffectiveBounds(cmd, Some(top), norm);
      0 <= i.value <= o.value <= |top.segment|
  {
    assert 0 <= norm(RawIn(cmd, top)) <= |top.segment|;
    assert 0 <= norm(RawOut(cmd, top)) <= |top.segment|;
  }

  /** Only the addresses the line carries are stored, and nothing else in the
      frame changes. */
  lemma PersistOnlyGiven(f: Stacks.FrameState, cmd: Command, norm: int -> int)
    ensures var g := PersistPoints(f, cmd, norm);
      && (cmd.inAddr.None? ==> g.inPoint == f.inPoint)
      && (cmd.outAddr.None? ==> g.outPoint == f.outPoint)
      && (cmd.inAddr.Some? ==> g.inPoint == Some(norm(cmd.inAddr.value)))
      && (cmd.outAddr.Some? ==> g.outPoint == Some(norm(cmd.outAddr.value)))
      && g.segment == f.segment && g.cursor == f.cursor
      && g.viewStart == f.viewStart && g.viewEnd == f.viewEnd
  {
  }

  /** The stored points are the values before the exchange: `500,100` stores
      in 500 and out 100 while the bounds become 100 and 500. */
  lemma PersistBeforeExchange(f: Stacks.FrameState)
    ensures var cmd := Command(Some(500), Some(100), None, None);
      var id := (t: int) => t;
      && EffectiveBounds(cmd, Some(f), id) == (Some(100), Some(500))
      && PersistPoints(f, cmd, id).inPoint == Some(500)
      && PersistPoints(f, cmd, id).outPoint == Some(100)
  {
  }

  // ---------------------------------------------------------------------
  // What each operation does, as a function of the frame states.

  /** The arguments a parsed line hands to its operation. */
  function Arguments(cmd: Command): seq<string> {
    if cmd.arguments.Some? then cmd.arguments.value else []
  }

  /** The operations whose effect this model leaves out: they reach stack or
      frame methods that `mw/stack.py` does not define, or audio and display
      work. */
  predicate LeftOut(op: Op) {
    op.Append? || op.Export? || op.Fadein? || op.Fadeout? || op.Loop? || op.New?
    || op.Normalize? || op.Play? || op.Prepend? || op.Setw? || op.Split?
  }

  /** The operations that keep the list of frame objects itself. */
  predicate KeepsFrames(op: Op) {
    !(op.Bounce? || op.Dup? || op.Pop? || op.Roll? || op.Swap?)
  }

  /** The operations that edit the top frame and nothing else. */
  predicate EditsTop(op: Op) {
    op.Bloop? || op.Ci? || op.Co? || op.Crop? || op.Silence?
  }

  /** The operation `getattr(self, action)` finds, run with `args` on the frame
      states `s` and the handler's bounds: too many arguments raise TypeError
      before the call; `q`, the output-only operations and the ones left out
      keep the frames. */
  function Apply(op: Op, args: seq<string>, s: seq<Stacks.FrameState>, bounds: (Option<int>, Option<int>)): Stacks.Edited {
    if |args| > MaxArgs(op) then Stacks.Edited(Raised(TypeError), s)
    else if EditsTop(op) then ApplyTop(op, s, bounds.0, bounds.1)
    else if !KeepsFrames(op) then ApplyStack(op, args, s)
    else Stacks.Edited(Ok, s)
  }

  /** The operations on the top frame. The three selection operations do
      nothing on an empty stack and fail their assertions when a bound `i` or
      `o` is unset. */
  function ApplyTop(op: Op, s: seq<Stacks.FrameState>, i: Option<int>, o: Option<int>): Stacks.Edited
    requires EditsTop(op)
  {
    if s == [] then Stacks.Edited(Ok, s)
    else
      var f := s[|s| - 1];
      match op
      case Ci => Stacks.Edited(Ok, Stacks.WithTop(s, f.(inPoint := None)))
      case Co => Stacks.Edited(Ok, Stacks.WithTop(s, f.(outPoint := None)))
      case Crop =>
        if i.None? || o.None? then Stacks.Edited(Raised(AssertionError), s)
        else
          var (st, g) := Stacks.CropState(f, i.value, o.value);
          Stacks.Edited(st, Stacks.WithTop(s, g))
      case Silence =>
        if i.None? || o.None? then Stacks.Edited(Raised(AssertionError), s)
        else
          var (st, g) := Stacks.InsertSilenceState(f, o.value - i.value, i.value);
          Stacks.Edited(st, Stacks.WithTop(s, g))
      case Bloop =>
        if i.None? || o.None? then Stacks.Edited(Raised(AssertionError), s)
        else
          var (st, g) := Stacks.BloopState(f, Some(o.value - i.value), Some(i.value));
          Stacks.Edited(st, Stacks.WithTop(s, g))
  }

  /** The operations that add, drop or reorder frames. */
  function ApplyStack(op: Op, args: seq<string>, s: seq<Stacks.FrameState>): Stacks.Edited
    requires !KeepsFrames(op)
  {
    match op
    case Dup => Stacks.Edited(Ok, if s == [] then s else s + [Stacks.Fresh(s[|s| - 1].segment)])
    case Swap => Stacks.Edited(Ok, Stacks.SwapTop(s))
    case Pop => if s == [] then Stacks.Edited(Raised(IndexError), s) else Stacks.Edited(Ok, s[..|s| - 1])
    case Roll =>
      var count := if args == [] then "1" else args[0];
      if count == [] then Stacks.Edited(Raised(IndexError), s)
      else if !IsRollCount(count) then Stacks.Edited(NotANumber, s)
      else if s == [] then Stacks.Edited(Raised(ZeroDivisionError), s)
      else Stacks.Edited(Ok, Stacks.RotateRight(s, RollValue(count) % |s|))
    case Bounce => Stacks.Edited(Ok, if |s| > 1 then Stacks.BounceTop(s) else s)
  }

  /** For the operations whose effect is left out, `Apply` is a placeholder
      that keeps the frames; their status is not modelled. */
  lemma LeftOutKeeps(op: Op, args: seq<string>, s: seq<Stacks.FrameState>, bounds: (Option<int>, Option<int>))
    requires |args| <= MaxArgs(op) && LeftOut(op)
    ensures Apply(op, args, s, bounds) == Stacks.Edited(Ok, s)
  {
  }

  /** An operation that fails leaves every frame as it was: each check comes
      before the first change. */
  lemma FailureChangesNothing(op: Op, args: seq<string>, s: seq<Stacks.FrameState>, bounds: (Option<int>, Option<int>))
    ensures Apply(op, args, s, bounds).status != Ok ==> Apply(op, args, s, bounds).states == s
  {
    if |args| <= MaxArgs(op) && EditsTop(op) {
      TopFailureKeeps(op, s, bounds.0, bounds.1);
    }
  }

  lemma TopFailureKeeps(op: Op, s: seq<Stacks.FrameState>, i: Option<int>, o: Option<int>)
    requires EditsTop(op)
    ensures ApplyTop(op, s, i, o).status != Ok ==> ApplyTop(op, s, i, o).states == s
  {
    if s != [] {
      assert Stacks.WithTop(s, s[|s| - 1]) == s;
    }
  }

  /** Only `dup` adds a frame and only `pop` and `bounce` remove one; every
      other operation, and every failure, keeps the height. */
  lemma HeightChange(op: Op, args: seq<string>, s: seq<Stacks.FrameState>, bounds: (Option<int>, Option<int>))
    ensures var r := Apply(op, args, s, bounds);
      |r.states| == |s| + (if r.status != Ok || s == [] then 0
                           else if op == Dup then 1
                           else if op == Pop || (op == Bounce && |s| > 1) then -1
                           else 0)
  {
    var r := Apply(op, args, s, bounds);
    if r.status == Ok && s != [] && |args| <= MaxArgs(op) {
      if op == Bounce && |s| > 1 {
        Stacks.BounceTopContents(s);
      } else if op == Swap {
        Stacks.SwapTopContents(s);
      } else if op == Roll {
        var count := if args == [] then "1" else args[0];
        Stacks.RotateRightClosed(s, RollValue(count) % |s|);
      }
    }
  }

  /** The selection operations change the top frame and nothing below it. */
  lemma OnlyTopChanges(op: Op, args: seq<string>, s: seq<Stacks.FrameState>, bounds: (Option<int>, Option<int>))
    requires s != [] && EditsTop(op)
    ensures var r := Apply(op, args, s, bounds);
      |r.states| == |s| && r.states[..|s| - 1] == s[..|s| - 1]
  {
  }

  // ---------------------------------------------------------------------
  // The application state the handler works on.

  class App {
    const stack: Stacks.Stack
    var shouldExit: bool

    constructor (stack: Stacks.Stack)
      ensures this.stack == stack && !shouldExit
    {
      this.stack := stack;
      shouldExit := false;
    }
  }

  /** The outcome of one command line. */
  datatype Outcome =
    | CouldNotParse              // the line is not in the grammar
    | NoAction                   // the line held addresses only
    | NotRecognized              // the action names no public operation
    | Ran(op: Op, status: Status)
    | Outside(op: Op)            // an operation whose effect this model leaves out

  /** A `roll` count: digits, or '-' then digits. */
  predicate IsRollCount(count: string) {
    IsDigitString(count) || (|count| > 0 && count[0] == '-' && IsDigitString(count[1..]))
  }

  function RollValue(count: string): int
    requires IsRollCount(count)
  {
    if IsDigitString(count) then DigitsValue(count) else -(DigitsValue(count[1..]) as int)
  }

  class CommandHandler {
    var effectiveIn: Option<int>
    var effectiveOut: Option<int>

    constructor ()
      ensures effectiveIn.None? && effectiveOut.None?
    {
      effectiveIn := None;
      effectiveOut := None;
    }

    /** The bounds step of `_handle_command` for a parsed line. */
    method ResolveBounds(app: App, cmd: Command, norm: int -> int)
      requires app.stack.Valid()
      modifies this, app.stack.TopSet()
      ensures app.stack.Valid() && app.stack.entries == old(app.stack.entries)
      ensures (effectiveIn, effectiveOut) == EffectiveBounds(cmd, TopState(old(app.stack.States())), norm)
      ensures app.stack.States() == PersistTop(old(app.stack.States()), cmd, norm)
    {
      var top := app.stack.Top();
      if top.Some? {
        var t := top.value;
        ghost var oldTop := t.State();
        ghost var s := app.stack.States();
        assert TopState(s) == Some(oldTop);
        var i := norm(if cmd.inAddr.Some? then cmd.inAddr.value else Or(t.inPoint, 0));
        var o := norm(if cmd.outAddr.Some? then cmd.outAddr.value else Or(t.outPoint, -1));
        var bounds := if o < i then (Some(o), Some(i)) else (Some(i), Some(o));
        assert bounds == EffectiveBounds(cmd, Some(oldTop), norm);
        StorePoints(app.stack, cmd, i, o);
        assert app.stack.States() == PersistTop(s, cmd, norm);
        label Stored:
        effectiveIn, effectiveOut := bounds.0, bounds.1;
        Stacks.StatesUnchanged@Stored(app.stack.entries);
      } else {
        effectiveIn, effectiveOut := None, None;
      }
    }

    /** Store the normalized addresses the line carries in the top frame. */
    static method StorePoints(stack: Stacks.Stack, cmd: Command, i: int, o: int)
      requires stack.Valid() && stack.entries != []
      modifies stack.TopSet()
      ensures stack.Valid() && stack.entries == old(stack.entries)
      ensures stack.States() == old(stack.States())[..|stack.entries| - 1]
        + [old(stack.States())[|stack.entries| - 1].(inPoint := if cmd.inAddr.Some? then Some(i) else old(stack.States())[|stack.entries| - 1].inPoint,
                                                     outPoint := if cmd.outAddr.Some? then Some(o) else old(stack.States())[|stack.entries| - 1].outPoint)]
    {
      var t := stack.entries[|stack.entries| - 1];
      ghost var before := stack.States();
      if cmd.inAddr.Some? {
        t.inPoint := Some(i);
      }
      if cmd.outAddr.Some? {
        t.outPoint := Some(o);
      }
      StatesAfterTop(stack, before);
    }

    /** `_handle_command(app, line)`. */
    method HandleCommand(app: App, line: string, norm: int -> int) returns (out: Outcome)
      requires app.stack.Valid()
      modifies this, app, app.stack, app.stack.TopSet()
      ensures app.stack.Valid()
      ensures Parse(line).None? <==> out == CouldNotParse
      ensures out == CouldNotParse ==>
        (effectiveIn == old(effectiveIn) && effectiveOut == old(effectiveOut)
         && app.stack.entries == old(app.stack.entries) && app.stack.States() == old(app.stack.States()))
      ensures Parse(line).Some? ==>
        var cmd := Parse(line).value;
        && (effectiveIn, effectiveOut) ==
             EffectiveBounds(cmd, TopState(old(app.stack.States())), norm)
        && (cmd.action.None? <==> out == NoAction)
        && (cmd.action.Some? && Lookup(cmd.action.value).None? <==> out == NotRecognized)
        && (cmd.action.Some? && Lookup(cmd.action.value).Some? ==>
              var op := Lookup(cmd.action.value).value;
              var r := Apply(op, Arguments(cmd), PersistTop(old(app.stack.States()), cmd, norm),
                             EffectiveBounds(cmd, TopState(old(app.stack.States())), norm));
              && (out.Ran? || out.Outside?) && out.op == op
              && (out.Ran? ==> out.status == r.status)
              && (out.Outside? <==> |Arguments(cmd)| <= MaxArgs(op) && LeftOut(op))
              && app.stack.States() == r.states
              && app.shouldExit == (old(app.shouldExit) || (op == Q && Arguments(cmd) == [])))
        && (out == NoAction || out == NotRecognized ==>
              app.stack.entries == old(app.stack.entries)
              && app.stack.States() == PersistTop(old(app.stack.States()), cmd, norm))
      ensures !(out.Ran? || out.Outside?) ==> app.shouldExit == old(app.shouldExit)
    {
      var parsed := Parse(line);
      if parsed.None? {
        return CouldNotParse;
      }
      var cmd := parsed.value;
      ResolveBounds(app, cmd, norm);
      if cmd.action.None? {
        return NoAction;
      }
      var op := Lookup(cmd.action.value);
      if op.None? {
        return NotRecognized;
      }
      out := Invoke(app, op.value, Arguments(cmd));
    }

    /** `getattr(self, name)(app, *args)` for a public operation. */
    method Invoke(app: App, op: Op, args: seq<string>) returns (out: Outcome)
      requires app.stack.Valid()
      modifies app, app.stack, app.stack.TopSet()
      ensures app.stack.Valid()
      ensures (out.Ran? || out.Outside?) && out.op == op
      ensures out.Ran? ==> out.status == Apply(op, args, old(app.stack.States()), (old(effectiveIn), old(effectiveOut))).status
      ensures app.stack.States() == Apply(op, args, old(app.stack.States()), (old(effectiveIn), old(effectiveOut))).states
      ensures out.Outside? <==> |args| <= MaxArgs(op) && LeftOut(op)
      ensures op == Q && args == [] ==> app.shouldExit
      ensures !(op == Q && args == []) ==> app.shouldExit == old(app.shouldExit)
      ensures |args| > MaxArgs(op) ==>
        out == Ran(op, Raised(TypeError)) && app.stack.entries == old(app.stack.entries)
      ensures KeepsFrames(op) ==> app.stack.entries == old(app.stack.entries)
    {
      if |args| > MaxArgs(op) {
        return Ran(op, Raised(TypeError));
      }
      if LeftOut(op) {
        LeftOutKeeps(op, args, app.stack.States(), (effectiveIn, effectiveOut));
        return Outside(op);
      }
      var st := Run(app, op, args);
      return Ran(op, st);
    }

    /** The call itself, for an operation this model covers. */
    method Run(app: App, op: Op, args: seq<string>) returns (st: Status)
      requires app.stack.Valid() && |args| <= MaxArgs(op) && !LeftOut(op)
      modifies app, app.stack, app.stack.TopSet()
      ensures app.stack.Valid()
      ensures st == Apply(op, args, old(app.stack.States()), (old(effectiveIn), old(effectiveOut))).status
      ensures app.stack.States() == Apply(op, args, old(app.stack.States()), (old(effectiveIn), old(effectiveOut))).states
      ensures op == Q ==> app.shouldExit
      ensures op != Q ==> app.shouldExit == old(app.shouldExit)
      ensures KeepsFrames(op) ==> app.stack.entries == old(app.stack.entries)
    {
      st := Ok;
      if op == Q {
        Quit(app);
      } else if EditsTop(op) {
        st := RunOnTop(app, op);
      } else if !KeepsFrames(op) {
        st := RunOnStack(app, op, args);
      }
    }

    /** The dispatch for the operations that edit the top frame only. */
    method RunOnTop(app: App, op: Op) returns (st: Status)
      requires app.stack.Valid() && EditsTop(op)
      modifies app.stack.TopSet()
      ensures app.stack.Valid() && app.stack.entries == old(app.stack.entries)
      ensures var r := ApplyTop(op, old(app.stack.States()), old(effectiveIn), old(effectiveOut));
        st == r.status && app.stack.States() == r.states
    {
      st := Ok;
      match op {
        case Ci => ClearIn(app);
        case Co => ClearOut(app);
        case Crop => st := Crop(app);
        case Silence => st := Silence(app);
        case Bloop => st := Bloop(app);
      }
    }

    /** The dispatch for the operations that add, drop or reorder frames. */
    method RunOnStack(app: App, op: Op, args: seq<string>) returns (st: Status)
      requires app.stack.Valid() && !KeepsFrames(op)
      modifies app.stack
      ensures app.stack.Valid()
      ensures var r := ApplyStack(op, args, old(app.stack.States()));
        st == r.status && app.stack.States() == r.states
    {
      st := Ok;
      match op {
        case Dup => Dup(app);
        case Swap => Swap(app);
        case Pop => st := Pop(app);
        case Roll => st := Roll(app, if args == [] then "1" else args[0]);
        case Bounce => Bounce(app);
      }
    }

    /** `q`: ask the shell to exit. */
    method Quit(app: App)
      modifies app
      ensures app.shouldExit
    {
      app.shouldExit := true;
    }

    /** `ci`: forget the top frame's in point. */
    method ClearIn(app: App)
      requires app.stack.Valid()
      modifies app.stack.TopSet()
      ensures app.stack.Valid() && app.stack.entries == old(app.stack.entries)
      ensures var s := old(app.stack.States());
        app.stack.States() == if s == [] then s else Stacks.WithTop(s, s[|s| - 1].(inPoint := None))
    {
      var top := app.stack.Top();
      if top.Some? {
        ghost var before := app.stack.States();
        top.value.inPoint := None;
        StatesAfterTop(app.stack, before);
      }
    }

    /** `co`: forget the top frame's out point. */
    method ClearOut(app: App)
      requires app.stack.Valid()
      modifies app.stack.TopSet()
      ensures app.stack.Valid() && app.stack.entries == old(app.stack.entries)
      ensures var s := old(app.stack.States());
        app.stack.States() == if s == [] then s else Stacks.WithTop(s, s[|s| - 1].(outPoint := None))
    {
      var top := app.stack.Top();
      if top.Some? {
        ghost var before := app.stack.States();
        top.value.outPoint := None;
        StatesAfterTop(app.stack, before);
      }
    }

    /** `dup`: push a fresh frame holding a copy of the top clip. */
    method Dup(app: App)
      requires app.stack.Valid()
      modifies app.stack
      ensures app.stack.Valid()
      ensures old(app.stack.entries) == [] ==> app.stack.entries == old(app.stack.entries)
      ensures var s := old(app.stack.States());
        app.stack.States() == if s == [] then s else s + [Stacks.Fresh(s[|s| - 1].segment)]
    {
      var top := app.stack.Top();
      if top.Some? {
        app.stack.PushSound(top.value.segment);
      }
    }

    /** `swap`: exchange the top two entries. */
    method Swap(app: App)
      requires app.stack.Valid()
      modifies app.stack
      ensures app.stack.Valid()
      ensures app.stack.entries == Stacks.SwapTop(old(app.stack.entries))
      ensures app.stack.States() == Stacks.SwapTop(old(app.stack.States()))
    {
      var e := app.stack.entries;
      if |e| > 1 {
        app.stack.entries := e[..|e| - 2] + [e[|e| - 1], e[|e| - 2]];
        DistinctSwapTop(e);
      }
      Stacks.StatesOfSwapTop(e);
    }

    /** `pop`: drop the top entry; IndexError on an empty stack. */
    method Pop(app: App) returns (st: Status)
      requires app.stack.Valid()
      modifies app.stack
      ensures app.stack.Valid()
      ensures old(app.stack.entries) == [] <==> st == Raised(IndexError)
      ensures st == Raised(IndexError) ==> app.stack.entries == old(app.stack.entries)
      ensures st == Ok ==> app.stack.entries == old(app.stack.entries)[..|old(app.stack.entries)| - 1]
      ensures st == Ok || st == Raised(IndexError)
      ensures var s := old(app.stack.States());
        app.stack.States() == if st == Ok then s[..|s| - 1] else s
    {
      var e := app.stack.entries;
      if e == [] {
        return Raised(IndexError);
      }
      app.stack.entries := e[..|e| - 1];
      Stacks.StatesOfPrefix(e, |e| - 1);
      return Ok;
    }

    /** `roll(count)`: rotate right, one entry from the top to the bottom per
      step, `count mod n` steps. An empty count raises IndexError, any other
      non-number changes nothing, and an empty stack divides by zero. */
    method Roll(app: App, count: string) returns (st: Status)
      requires app.stack.Valid()
      modifies app.stack
      ensures app.stack.Valid()
      ensures count == [] ==> st == Raised(IndexError)
      ensures count != [] && !IsRollCount(count) ==> st == NotANumber
      ensures IsRollCount(count) && old(app.stack.entries) == [] ==> st == Raised(ZeroDivisionError)
      ensures st != Ok ==> app.stack.entries == old(app.stack.entries)
      ensures IsRollCount(count) && old(app.stack.entries) != [] ==>
        var n := |old(app.stack.entries)|;
        var k := RollValue(count) % n;
        && st == Ok
        && app.stack.entries == Stacks.RotateRight(old(app.stack.entries), k)
        && app.stack.entries == old(app.stack.entries)[n - k..] + old(app.stack.entries)[..n - k]
      ensures var s := old(app.stack.States());
        app.stack.States() == if st == Ok then Stacks.RotateRight(s, RollValue(count) % |s|) else s
    {
      if count == [] {
        return Raised(IndexError);
      }
      if !IsRollCount(count) {
        return NotANumber;
      }
      if app.stack.entries == [] {
        return Raised(ZeroDivisionError);
      }
      RotateStack(app.stack, RollValue(count) % |app.stack.entries|);
      return Ok;
    }

    /** Roll the stack `num` steps: the last `num` entries move to the front,
      and the frames go with them. */
    static method RotateStack(stack: Stacks.Stack, num: nat)
      requires stack.Valid() && num <= |stack.entries|
      modifies stack
      ensures stack.Valid()
      ensures stack.entries == Stacks.RotateRight(old(stack.entries), num)
      ensures var e := old(stack.entries);
        stack.entries == e[|e| - num..] + e[..|e| - num]
      ensures stack.States() == Stacks.RotateRight(old(stack.States()), num)
    {
      ghost var start := stack.entries;
      RollSteps(stack, num);
      Stacks.RotateRightClosed(start, num);
      DistinctRotate(start, num);
      Stacks.StatesUnchanged(start);
      Stacks.StatesOfRotateRight(start, num);
    }

    /** The loop of `roll`: `num` times, move the top entry to the bottom. */
    static method RollSteps(stack: Stacks.Stack, num: nat)
      requires num <= |stack.entries|
      modifies stack
      ensures stack.entries == Stacks.RotateRight(old(stack.entries), num)
    {
      ghost var start := stack.entries;
      var i := 0;
      while i < num
        invariant 0 <= i <= num
        invariant |stack.entries| == |start|
        invariant stack.entries == Stacks.RotateRight(start, i)
      {
        var e := stack.entries;
        stack.entries := e[|e| - 1..] + e[..|e| - 1];
        assert [e[|e| - 1]] == e[|e| - 1..];
        i := i + 1;
      }
    }

    /** `crop`: crop the top clip to the bounds. */
    method Crop(app: App) returns (st: Status)
      requires app.stack.Valid()
      modifies app.stack.TopSet()
      ensures app.stack.Valid() && app.stack.entries == old(app.stack.entries)
      ensures var s := old(app.stack.States());
        if s == [] then st == Ok && app.stack.States() == s
        else if old(effectiveIn).None? || old(effectiveOut).None? then st == Raised(AssertionError) && app.stack.States() == s
        else
          var (t, f) := Stacks.CropState(s[|s| - 1], old(effectiveIn).value, old(effectiveOut).value);
          st == t && app.stack.States() == Stacks.WithTop(s, f)
    {
      var top := app.stack.Top();
      if top.None? {
        return Ok;
      }
      if effectiveIn.None? || effectiveOut.None? {
        return Raised(AssertionError);
      }
      ghost var before := app.stack.States();
      st := top.value.Crop(effectiveIn.value, effectiveOut.value);
      StatesAfterTop(app.stack, before);
    }

    /** `silence`: insert silence as long as the selection at its start. */
    method Silence(app: App) returns (st: Status)
      requires app.stack.Valid()
      modifies app.stack.TopSet()
      ensures app.stack.Valid() && app.stack.entries == old(app.stack.entries)
      ensures var s := old(app.stack.States());
        if s == [] then st == Ok && app.stack.States() == s
        else if old(effectiveIn).None? || old(effectiveOut).None? then st == Raised(AssertionError) && app.stack.States() == s
        else
          var (t, f) := Stacks.InsertSilenceState(s[|s| - 1], old(effectiveOut).value - old(effectiveIn).value, old(effectiveIn).value);
          st == t && app.stack.States() == Stacks.WithTop(s, f)
    {
      var top := app.stack.Top();
      if top.None? {
        return Ok;
      }
      if effectiveIn.None? || effectiveOut.None? {
        return Raised(AssertionError);
      }
      ghost var before := app.stack.States();
      st := top.value.InsertSilence(effectiveOut.value - effectiveIn.value, effectiveIn.value);
      StatesAfterTop(app.stack, before);
    }

    /** `bloop`: silence the selection. */
    method Bloop(app: App) returns (st: Status)
      requires app.stack.Valid()
      modifies app.stack.TopSet()
      ensures app.stack.Valid() && app.stack.entries == old(app.stack.entries)
      ensures var s := old(app.stack.States());
        if s == [] then st == Ok && app.stack.States() == s
        else if old(effectiveIn).None? || old(effectiveOut).None? then st == Raised(AssertionError) && app.stack.States() == s
        else
          var (t, f) := Stacks.BloopState(s[|s| - 1], Some(old(effectiveOut).value - old(effectiveIn).value), Some(old(effectiveIn).value));
          st == t && app.stack.States() == Stacks.WithTop(s, f)
    {
      var top := app.stack.Top();
      if top.None? {
        return Ok;
      }
      if effectiveIn.None? || effectiveOut.None? {
        return Raised(AssertionError);
      }
      ghost var before := app.stack.States();
      st := top.value.Bloop(Some(effectiveOut.value - effectiveIn.value), Some(effectiveIn.value));
      StatesAfterTop(app.stack, before);
    }

    /** `bounce`: mix the top two clips when there are two. */
    method Bounce(app: App)
      requires app.stack.Valid()
      modifies app.stack
      ensures app.stack.Valid()
      ensures |old(app.stack.entries)| <= 1 ==> app.stack.entries == old(app.stack.entries)
      ensures var s := old(app.stack.States());
        app.stack.States() == if |s| > 1 then Stacks.BounceTop(s) else s
    {
      if |app.stack.entries| > 1 {
        var _ := app.stack.Bounce();
      }
    }
  }

  // ---------------------------------------------------------------------
  // Frame bookkeeping.

  /** After a change to the top frame alone, the states below it are as before. */
  lemma StatesAfterTop(stack: Stacks.Stack, before: seq<Stacks.FrameState>)
    requires stack.Valid() && stack.entries != [] && |before| == |stack.entries|
    requires forall i :: 0 <= i < |stack.entries| - 1 ==> before[i] == stack.entries[i].State()
    ensures stack.States() == before[..|stack.entries| - 1] + [stack.entries[|stack.entries| - 1].State()]
  {
  }

  lemma DistinctSwapTop(e: seq<Stacks.StackFrame>)
    requires Stacks.Distinct(e) && |e| > 1
    ensures Stacks.Distinct(e[..|e| - 2] + [e[|e| - 1], e[|e| - 2]])
  {
    var r := e[..|e| - 2] + [e[|e| - 1], e[|e| - 2]];
    forall i, j | 0 <= i < j < |r|
      ensures r[i] != r[j]
    {
      var pi := if i == |e| - 2 then |e| - 1 else if i == |e| - 1 then |e| - 2 else i;
      var pj := if j == |e| - 2 then |e| - 1 else if j == |e| - 1 then |e| - 2 else j;
      assert r[i] == e[pi] && r[j] == e[pj];
    }
  }

  lemma DistinctRotate(e: seq<Stacks.StackFrame>, k: nat)
    requires Stacks.Distinct(e) && k <= |e|
    ensures Stacks.Distinct(e[|e| - k..] + e[..|e| - k])
  {
    var n := |e|;
    var r := e[n - k..] + e[..n - k];
    forall i, j | 0 <= i < j < n
      ensures r[i] != r[j]
    {
      var pi := if i < k then n - k + i else i - k;
      var pj := if j < k then n - k + j else j - k;
      assert r[i] == e[pi] && r[j] == e[pj];
    }
  }
}
