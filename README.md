# mw — the command front end and clip stack, in Dafny

`mw` is a line-oriented audio editor. The user types commands at a prompt. Each command edits a stack of clips, and the clip on top is the one being edited. This project models the editor's core and proves properties of the model:

- the command-line grammar and its visitor (`mw/commands.py`), as a hand-written PEG parser over `seq<char>`;
- the numeric-token rule `parse_numeric`, which the source carries three times with the same body;
- bounds resolution, registry lookup, tab completion and the stack-editing operations of the newer `CommandHandler` (`mw/commands.py`);
- the word-based `CommandHandler` (`mw/command_handler.py`);
- `StackFrame` and `Stack` (`mw/stack.py`);
- the earlier single-class `Session` editor (`mw/session.py`).

A clip is abstracted to one integer sample per millisecond, so `len(segment)` is `|segment|`. Slicing is assumed to follow Python's slice rules (`Audio.Slice`); see "## Left out" for where AudioSegment differs.

Objects that the source updates in place are classes with `modifies` clauses: `StackFrame`, `Stack`, `App`, both `CommandHandler`s and `Session`. Each class exposes its fields as a value (`State()`, `States()`), and every method's `ensures` ties the new value to a function of the old one. In particular, the two dispatchers (`Commands.CommandHandler.HandleCommand`/`Invoke` and `Handler.CommandHandler.Handle`/`Invoke`) state the status and the new frame states as `Apply` of the operation, its arguments and the old states. `Apply` is a function with one case per operation, and the properties are proved about it.

A Python exception that escapes an operation is a result value: `Raised(e)` in `Base.Status` or `Failed(e)` in `Sessions.Reply`. Nothing in the shell catches such exceptions, so an escaping exception ends the session. An `assert` in the source becomes `Raised(AssertionError)`, and the state stays as it was. A "not a number" message becomes `NotANumber`.

Modules, one per file:

- `Base`, `Chars`, `Numeric`, `Audio`: shared vocabulary;
- `Grammar`: the parser;
- `Stacks`: `mw/stack.py`;
- `Commands`: `mw/commands.py`;
- `Handler`: `mw/command_handler.py`;
- `Sessions`: `mw/session.py`.

Three points of the code's behaviour are easy to miss:

- A line whose action is not recognised still stores its explicit addresses in the top frame. `mw/commands.py:126-130` stores them before the lookup at :138-149 (`Commands.CommandHandler.HandleCommand`).
- A wrong argument count is not caught. The `TypeError` handler in `_handle_command` (mw/commands.py:141-146) is commented out, so the error escapes (`Commands.CommandHandler.Invoke`, `Handler.CommandHandler.Invoke`).
- The help text is built by reflection over the handler's public methods (mw/command_handler.py:45-55). It is output only and is left out.

## Model

| member | source | states |
|---|---|---|
| Chars.RunLength | mw/commands.py:19-25 | a regex token matches the longest prefix of its character class: every character before the stop is in the class, and the stop is the end or a character outside it |
| Chars.RunLengthOf | mw/commands.py:19-25 | the greedy run over a class-only prefix followed by a non-class character ends exactly at that prefix |
| Numeric.DigitsRoundTrip | mw/commands.py:56-57 | `int()` of the decimal text of `n` is `n` |
| Numeric.ParseNumericDelta | mw/commands.py:73-81 | a '+' or '-' token moves the base by its signed value (the same rule is at mw/command_handler.py:8-13 and mw/session.py:59-64) |
| Numeric.ParseNumericAbsolute | mw/commands.py:73-81 | a plain digit token replaces the base, whatever the base was |
| Numeric.ParseNumericOtherwise | mw/commands.py:73-81 | any other token leaves the base unchanged, and a changed result only comes from a signed or digit token |
| Audio.Silence | mw/stack.py:50 | `AudioSegment.silent(d)` has length `d` (0 for a negative `d`), and every sample is zero |
| Audio.PyIndex | mw/stack.py:35 | under the assumption that AudioSegment slices like a Python sequence: a bound in range is kept, past the end it is clamped to the length, and a negative bound counts from the end, clamped at 0 |
| Audio.SliceWithin | mw/stack.py:35 | inside the clip, `segment[start:end]` is the plain subsequence of length `end - start` |
| Audio.SliceSplit | mw/stack.py:131-132 | `segment[0:at] + segment[at:]` is the segment, for every `at` |
| Audio.Overlay | mw/stack.py:153 | `a.overlay(b)` keeps the length of `a`, and past the end of `b` the samples of `a` are unchanged |
| Grammar.ParseNumber | mw/commands.py:20 | a `number` token consumes at least one character |
| Grammar.ParseAction | mw/commands.py:19 | an action is a well-formed `[A-z][A-z0-9-]*` name, it is a prefix of the input, and the rest of the input follows it |
| Grammar.ParseQuoted | mw/commands.py:65-67 | a quoted argument loses its quotes and holds no '#' |
| Grammar.ParseWord | mw/commands.py:21 | a bare word holds no '#' and consumes input |
| Grammar.ParseArgument | mw/commands.py:17 | the quoted form is tried first, then the bare word; the argument holds no '#' |
| Grammar.ParseArgList | mw/commands.py:46-54 | every argument of the list is free of '#' |
| Grammar.ParseImperative | mw/commands.py:40-42 | the action is present exactly when the argument list is, and it is a well-formed name |
| Grammar.Parse | mw/commands.py:29-44 | a parsed record has `action` exactly when it has `arguments`; the action is well-formed and no argument holds '#' |
| Grammar.TrailingSpaceRejected | mw/commands.py:15 | a line without a comment that ends in whitespace is an incomplete parse |
| Grammar.ParseFormat | mw/commands.py:13-44 | every record whose arguments are writable (a bare word not starting with '"', or text free of '"' and '#'), written back as text and followed by nothing or a comment, parses back to the same record |
| Grammar.AddressExamples | test/test_commands.py:11-32 | `"101"`, `",201"` and `"990,1090"` give just their address keys, and `""` gives the empty record |
| Grammar.ActionExamples | test/test_commands.py:34-46 | `"xyz"` and `"change-things"` give that action with an empty argument list |
| Grammar.ArgumentExample | test/test_commands.py:48-55 | bare arguments come back verbatim and in order, leading '-' and '.' included |
| Grammar.QuotedExample | test/test_commands.py:57-62 | quoted arguments lose their quotes and keep inner spaces and non-ASCII letters |
| Grammar.CombinedExample | test/test_commands.py:65-68 | both addresses, the action and mixed bare and quoted arguments, as the test expects |
| Grammar.CutExample | test/test_commands.py:69-71 | `"950 cut /a"` gives the in address, the action and one argument |
| Grammar.SplatExample | test/test_commands.py:73-75 | an action may follow the out address with no separator, and a quoted Cyrillic argument is kept |
| Grammar.TrailingSpaceExample | mw/commands.py:112-114 | `"xyz "` is rejected |
| Stacks.WithSilenceLength | mw/stack.py:46-53 | inserting silence lengthens the clip by exactly the duration, wherever it is inserted |
| Stacks.WithSilenceContents | mw/stack.py:48-51 | inside the clip, the result is the clip before `at`, then `duration` zeros, then the rest of the clip; cutting the silence out gives the clip back |
| Stacks.BloopedContents | mw/stack.py:69-72 | blooping inside the clip keeps its length and zeroes exactly the selected samples |
| Stacks.BloopDefaultRejected | mw/stack.py:55-68 | with no points set, the check as written refuses the default selection, the whole clip; the intended check accepts it and silences the whole clip |
| Stacks.PaddedAsWrittenWrong | mw/stack.py:94-97 | as written, `pad` leaves a shorter clip short and makes a longer clip longer still |
| Stacks.PaddedAsWrittenExamples | mw/stack.py:94-97 | as written, padding 500 ms to 1000 ms gives 500 ms, and padding 1000 ms to 500 ms gives 1500 ms |
| Stacks.PaddedContents | mw/stack.py:94-100 | intended padding reaches `max(len, to_length)`, keeps the clip as the prefix and appends only silence |
| Stacks.CropContents | mw/stack.py:33-40 | the crop is refused exactly when `end <= start`; inside the clip the new segment is `segment[start..end]` and cursor, points and view are reset |
| Stacks.CropToSelectionDefaults | mw/stack.py:42-44 | an unset or zero point stands for that end of the clip: the whole clip is kept, and an empty clip cannot be cropped |
| Stacks.InsertSilenceContents | mw/stack.py:46-53 | refused exactly when `at >= len`; otherwise the length grows by the duration, the view is reset, and cursor and points are kept |
| Stacks.BloopStateContents | mw/stack.py:55-75 | a bloop inside the clip succeeds, keeps the length, and keeps cursor and points |
| Stacks.StackFrame.constructor | mw/stack.py:18-24 | a new frame has cursor 0, no points and the view on the whole clip |
| Stacks.StackFrame.ViewLength | mw/stack.py:26-28 | the view width is returned exactly when it is positive, otherwise the assertion fails |
| Stacks.StackFrame.Crop | mw/stack.py:33-40 | the frame's new state is the crop of its old state |
| Stacks.StackFrame.CropToSelection | mw/stack.py:42-44 | the frame's new state is the crop to `in or 0` through `out or len` |
| Stacks.StackFrame.InsertSilence | mw/stack.py:46-53 | the frame's new state is the insertion applied to its old state |
| Stacks.StackFrame.Bloop | mw/stack.py:55-75 | the frame's new state is the bloop, with defaults from the points and the intended check |
| Stacks.StackFrame.Pad | mw/stack.py:94-100 | the frame's new state is the intended padding, with the view reset |
| Stacks.MaxLength | mw/stack.py:158-162 | the result is at least every clip's length and equal to one of them; it is 0 for an empty stack |
| Stacks.SplitTopContents | mw/stack.py:127-135 | split adds one frame and keeps the frames below; the two halves together are the old clip, and their lengths sum to its length |
| Stacks.BounceTopContents | mw/stack.py:141-153 | bounce removes one frame and keeps the frames below; the mix is as long as the longer clip, and the stack's longest clip does not grow |
| Stacks.SwapTopContents | mw/commands.py:219-225 | swapping twice restores the order; a swap only reorders, and it exchanges exactly the top two entries |
| Stacks.RotateRightClosed | mw/commands.py:237-239 | `k` right-roll steps move the last `k` entries to the front |
| Stacks.RotateInverse | mw/command_handler.py:132-139 | the left rotation `entries[k:] + entries[:k]` and `k` right-roll steps undo each other, and both keep the entries' multiset |
| Stacks.RotateRightFull | mw/commands.py:236-239 | a full turn changes nothing, which is why the count is taken modulo the length |
| Stacks.Stack.Top | mw/stack.py:114-120 | `top` is the last entry, and it is absent exactly when there are no entries |
| Stacks.Stack.Length | mw/stack.py:158-162 | `length()` is at least every clip's length and equal to one of them; it is 0 when empty |
| Stacks.Stack.constructor | mw/stack.py:109-112 | one fresh frame per segment, in order, all distinct |
| Stacks.FreshAll | mw/stack.py:110-112 | the states a new stack starts from: one fresh state per segment, position by position |
| Stacks.Stack.FreshFrames | mw/stack.py:110-112 | the frames pushed one by one are all new, all distinct, and hold exactly the fresh states of the segments |
| Stacks.Stack.PushSound | mw/stack.py:122-124 | exactly one fresh frame is added on top, and the entries below are unchanged |
| Stacks.Stack.Split | mw/stack.py:127-139 | an empty stack fails the assertion; otherwise the frame states become the split of the old states |
| Stacks.Stack.Bounce | mw/stack.py:141-153 | fewer than two entries fail the assertion; otherwise the frame states become the bounce of the old states |
| Stacks.Stack.SplitFrames | mw/stack.py:129-135 | the frames below the top are kept, two new distinct frames replace the top, and their states are the split of the old states |
| Stacks.Stack.BounceFrames | mw/stack.py:144-153 | the frames below the top two are kept, one new frame replaces them, and its state is the mix of the two clips |
| Commands.AvailableCommands | mw/commands.py:152-153 | the public names, one per registered operation, in `dir()` order |
| Commands.AvailableSorted | mw/commands.py:152-153 | as `dir()` promises, the names are in strictly increasing order under Python's string `<`, so they are distinct; each is non-empty and none starts with '_' |
| Commands.ChainBelow | mw/commands.py:152-153 | a list whose neighbours are in increasing order is in increasing order throughout |
| Commands.BelowTransitive | mw/commands.py:152-153 | Python's string `<` is transitive |
| Commands.BelowIrreflexive | mw/commands.py:152-153 | no string is below itself |
| Commands.BelowAt | mw/commands.py:152-153 | strings that agree up to a position and differ there are ordered by the letters at that position |
| Commands.AdjacentBelow | mw/commands.py:152-153 | each public name is below the next one |
| Base.FindNamed | mw/commands.py:138-139 | the item found is in the list and has that name; when none is found, no item in the list has the name (both handlers look names up this way; the other lookup is at mw/command_handler.py:37-38) |
| Commands.LookupNames | mw/commands.py:138-149 | a word finds exactly the operation it names, it finds nothing exactly when it is not an available name, and underscore words find nothing |
| Commands.Candidates | mw/commands.py:157-158 | the candidates are exactly the names that start with `partial` |
| Commands.CompleteSound | mw/commands.py:155-162 | a completion is an available name that extends `partial`; there is none exactly when no name extends it; and every state inside the matches completes |
| Commands.CandidatesAppend | mw/commands.py:157-158 | filtering distributes over concatenation, so the candidates keep the names' order |
| Commands.CandidatesAt | mw/commands.py:157-158 | a matching name at position `j` is candidate number `k`, where `k` counts the matching names before `j` |
| Commands.CandidateFrom | mw/commands.py:157-158 | every candidate `k` is the name at a position `j` with exactly `k` matching names before it |
| Commands.CompleteInOrder | mw/commands.py:155-162 | state `k` completes to the name of the registry entry with exactly `k` matching names before it: completion walks the matches in `dir()` order |
| Commands.CompleteFrom | mw/commands.py:155-162 | conversely, every state inside the matches completes to such a registry entry's name |
| Commands.BoundsOrdered | mw/commands.py:116-136 | the bounds are unset exactly on an empty stack; otherwise they are the two normalized raw bounds, in increasing order |
| Commands.BoundsInClip | mw/commands.py:119-124 | under the named assumption that `normalize_command_time` lands in `[0, L]`, both bounds lie in the clip |
| Commands.PersistOnlyGiven | mw/commands.py:126-130 | a point is overwritten only when the line carried that address, with the normalized value; nothing else in the frame changes |
| Commands.PersistBeforeExchange | mw/commands.py:126-136 | the stored points are the values before the exchange: `500,100` stores in 500 and out 100, while the bounds become 100 and 500 |
| Commands.CommandHandler.ResolveBounds | mw/commands.py:116-136 | the bounds are the effective bounds of the old top frame, and the top frame gets the line's addresses |
| Commands.CommandHandler.StorePoints | mw/commands.py:126-130 | only the top frame changes, and only the points the line gives are overwritten |
| Commands.CommandHandler.HandleCommand | mw/commands.py:106-149 | unparsable lines change nothing; a parsed line sets the effective bounds; a line with no action or an unknown action changes nothing beyond storing its addresses; a known action's status and new frame states are `Apply` of it on the stored frames and the new bounds, only the left-out operations give `Outside`, and the exit flag is set exactly by `q` |
| Commands.CommandHandler.Invoke | mw/commands.py:138-146 | too many arguments raise TypeError and change nothing; otherwise the status and the new frame states are `Apply`'s, the left-out operations are `Outside`, and only `q` sets the exit flag |
| Commands.CommandHandler.Run | mw/commands.py:166-349 | each covered operation's status and new frame states are `Apply`'s; `q` sets the exit flag and nothing else does |
| Commands.CommandHandler.RunOnTop | mw/commands.py:194-206 | the top-frame operations (`ci`, `co`, `crop`, `silence`, `bloop`) keep the entries and give `ApplyTop`'s status and states for the old bounds |
| Commands.CommandHandler.RunOnStack | mw/commands.py:212-241 | the stack operations (`dup`, `swap`, `pop`, `roll`, `bounce`) give `ApplyStack`'s status and states |
| Commands.LeftOutKeeps | mw/commands.py:263-324 | for the commands whose effect is left out, `Apply` is a placeholder that keeps every frame; their status is not modelled, and the dispatchers report them as `Outside`, which carries no status |
| Commands.FailureChangesNothing | mw/commands.py:227-349 | an operation that fails leaves every frame as it was: each check or assertion comes before the first change |
| Commands.HeightChange | mw/commands.py:212-241 | only `dup` adds a frame, and only `pop` and `bounce` on two or more entries remove one; every other operation and every failure keeps the height |
| Commands.OnlyTopChanges | mw/commands.py:194-261 | `ci`, `co`, `crop`, `silence` and `bloop` change the top frame and nothing below it |
| Commands.CommandHandler.Quit | mw/commands.py:166-168 | `q` sets the exit flag |
| Commands.CommandHandler.ClearIn | mw/commands.py:194-199 | only the top frame's in point is cleared |
| Commands.CommandHandler.ClearOut | mw/commands.py:201-206 | only the top frame's out point is cleared |
| Commands.CommandHandler.Dup | mw/commands.py:212-217 | a fresh frame holding the top clip is pushed; an empty stack is left alone |
| Commands.CommandHandler.Swap | mw/commands.py:219-225 | the entries, and with them the frame states, become the swap of the old ones |
| Commands.CommandHandler.Pop | mw/commands.py:227-230 | exactly the top entry and its state are removed; an empty stack raises IndexError and changes nothing |
| Commands.CommandHandler.Roll | mw/commands.py:232-241 | a digit or '-digit' count rotates the entries and their states right by `count mod n`, moving the last `k` entries to the front; an empty count raises IndexError, another non-number changes nothing, and an empty stack divides by zero |
| Commands.CommandHandler.RotateStack | mw/commands.py:236-239 | `num` roll steps move the last `num` entries to the front, with their frame states, and keep the stack valid |
| Commands.CommandHandler.RollSteps | mw/commands.py:237-239 | after the loop the entries are the old entries rolled right `num` times |
| Commands.CommandHandler.Crop | mw/commands.py:243-250 | the top frame is cropped to the effective bounds |
| Commands.CommandHandler.Silence | mw/commands.py:252-261 | silence as long as the selection is inserted at the in bound |
| Commands.CommandHandler.Bloop | mw/commands.py:338-349 | the selection between the bounds is silenced |
| Commands.CommandHandler.Bounce | mw/commands.py:331-336 | with two or more entries the top two are bounced; otherwise nothing changes |
| Handler.LookupNames | mw/command_handler.py:36-40 | a word finds exactly the operation it names, and underscore words find no public operation |
| Handler.NudgeCursor | mw/command_handler.py:61-67 | after `cmills` the cursor lies in `[0, len]`; it is the parsed value when that is in range and clamps to the nearer end otherwise; nothing else changes |
| Handler.NewPointCases | mw/command_handler.py:87-105 | with no time the point is the cursor; a signed time moves from the current point (unset or 0 counts as 0); a plain time is absolute |
| Handler.CommandHandler.Handle | mw/command_handler.py:36-40 | the first word runs the operation it names: the status and the new frame states are `Apply` of it on the remaining words and the old states, and only `setw` is `Outside`; no words, or an unknown word, show the help and change nothing; the word `_handle` with one argument re-enters on that argument's characters and runs whatever `Target` finds there, with any other number of arguments it is `Rejected` (TypeError) and changes nothing; another underscore word is `Private` and changes nothing |
| Handler.CommandHandler.Dispatch | mw/command_handler.py:36-40 | on a line whose first word is not `_handle`: a known word runs its operation as `Apply` gives, and otherwise the outcome is the help or, for an underscore word, `Private`, and no frame changes |
| Handler.ReentryReaches | mw/command_handler.py:36-38 | `_handle w` can only run the one-letter operations `i` and `o` (mw/command_handler.py:87-105), named by the first character of `w`, with the remaining characters as one-character arguments |
| Handler.ReentryExample | mw/command_handler.py:36-38 | `_handle` on `i` followed by any character `d` runs `i` with the argument `d`, so `_handle i5` sets the in point like `i 5` |
| Handler.CommandHandler.Invoke | mw/command_handler.py:36-40 | a wrong argument count raises TypeError and changes nothing; otherwise the status and the new frame states are `Apply`'s; the output-only operations, `setw` and the empty fades keep the entries |
| Handler.CommandHandler.RunOnTop | mw/command_handler.py:61-171 | the top-frame operations keep the entries and give `ApplyTop`'s status and states |
| Handler.CommandHandler.RunOnStack | mw/command_handler.py:112-177 | `dup`, `swap`, `pop`, `roll` and `split` give `ApplyStack`'s status and states |
| Handler.OthersKeep | mw/command_handler.py:179-185 | the two fades, whose bodies are `pass`, succeed and keep every frame; `help`, `stack`, `show` and `setw` only print or set the display, so they keep every frame too, and the status `Apply` gives them is a placeholder |
| Handler.FailureChangesNothing | mw/command_handler.py:61-177 | an operation that fails leaves every frame as it was |
| Handler.HeightChange | mw/command_handler.py:112-177 | only `dup` and `split` add a frame and only `pop` removes one; every other operation and every failure keeps the height |
| Handler.OnlyTopChanges | mw/command_handler.py:61-171 | the cursor, point, crop and silence operations change the top frame and nothing below it |
| Handler.CommandHandler.CMills | mw/command_handler.py:61-67 | on an empty stack nothing happens; otherwise an empty position raises IndexError and changes nothing, and any other position makes the top frame the clamped nudge of its old state |
| Handler.CommandHandler.CBegin | mw/command_handler.py:69-74 | only the top cursor changes, to 0 |
| Handler.CommandHandler.CEnd | mw/command_handler.py:76-81 | only the top cursor changes, to the clip's length |
| Handler.CommandHandler.SetIn | mw/command_handler.py:87-95 | only the top in point changes, to the new point |
| Handler.CommandHandler.SetOut | mw/command_handler.py:97-105 | only the top out point changes, to the new point |
| Handler.CommandHandler.ClearIn | mw/command_handler.py:148-153 | only the top in point is cleared |
| Handler.CommandHandler.ClearOut | mw/command_handler.py:155-160 | only the top out point is cleared |
| Handler.CommandHandler.Crop | mw/command_handler.py:141-146 | the top frame is cropped to its selection |
| Handler.CommandHandler.Silence | mw/command_handler.py:162-171 | a non-digit duration changes nothing; otherwise silence is inserted at the top cursor |
| Handler.CommandHandler.Dup | mw/command_handler.py:112-117 | a fresh frame holding the top clip is pushed |
| Handler.CommandHandler.Swap | mw/command_handler.py:119-125 | only the top two entries are exchanged |
| Handler.CommandHandler.Pop | mw/command_handler.py:127-130 | exactly the top entry is removed; an empty stack raises IndexError |
| Handler.CommandHandler.Roll | mw/command_handler.py:132-139 | only a digit count is accepted, and the entries become `entries[k:] + entries[:k]` with `k = count mod n`; an empty stack divides by zero |
| Handler.CommandHandler.RotateEntries | mw/command_handler.py:135-137 | the entries become `entries[num:] + entries[:num]`, the frame states rotate with them, and the frames stay distinct |
| Handler.CommandHandler.Split | mw/command_handler.py:173-177 | a non-empty stack is split at the top cursor |
| Handler.RollsOpposite | mw/command_handler.py:132-139 | the two `roll` commands turn the stack in opposite directions: with the same count, each undoes the other |
| Sessions.Words | mw/session.py:73 | every word of `split()` is non-empty and free of whitespace |
| Sessions.WordsOfSpaced | mw/session.py:73 | splitting words joined by spaces gives the words back |
| Sessions.Longest | mw/session.py:66-67 | `length()` is at least every clip's length and equal to one of them; there is none (ValueError) on an empty stack |
| Sessions.StepQuits | mw/session.py:72-121 | only first word `q` ends the loop, and it changes nothing; a line with no words raises IndexError |
| Sessions.StepCursorClamped | mw/session.py:98-102 | on a non-empty stack `cm` leaves the cursor in `[0, length()]` and changes nothing else; on an empty stack it raises ValueError after moving the cursor |
| Sessions.StepPoints | mw/session.py:103-112 | `i` and `o` copy the cursor into a point, `x` clears both, and nothing else changes |
| Sessions.StepPop | mw/session.py:96-97 | `p` removes exactly the top clip; an empty stack raises IndexError |
| Sessions.CropHeadResult | mw/session.py:46-54 | a successful `crop_head` keeps the height, replaces the top clip by its selected slice and resets cursor and points; a failed crop changes nothing |
| Sessions.StackFrame.Crop | mw/session.py:17-19 | the crop is refused when `end <= start`; otherwise the segment becomes `segment[start:end]` |
| Sessions.Session.Length | mw/session.py:66-67 | the longest clip of the session's stack |
| Sessions.Session.constructor | mw/session.py:31-38 | one frame per segment, with cursor 0 and no points |
| Sessions.Session.PushSound | mw/session.py:40-44 | exactly one fresh frame is added on top, and the rest is unchanged |
| Sessions.Session.CropHead | mw/session.py:46-54 | the new session state is `crop_head` applied to the old one |
| Sessions.Session.HandleCommand | mw/session.py:72-121 | the reply and the new state are `handle_command`'s step on the old state and the line's words |
| Sessions.Session.Pop | mw/session.py:96-97 | the new state is the old one without its top clip |
| Sessions.Session.MoveCursor | mw/session.py:98-102 | the cursor is set by the three updates of `cm` |

## Left out

- Audio content is left out: fade curves, overlay mixing with its sample saturation, gain normalisation (a float in dB), playback and export. Samples are integers, and `Audio.Overlay` mixes by plain addition; the proofs rely only on lengths and positions.
- Display and I/O are left out: the printed stack and head, the prompt, `print` messages, `setw`'s display width (modelled only as the `Outside` outcome, which keeps every frame), `show`, `stack`, `length`, `license` and `help`. Help text comes from `inspect.signature` and docstrings; only the fixed name set is modelled.
- `app.normalize_command_time` is not part of this model. It is a parameter `norm`. The range fact about it is the named assumption `Commands.NormalizesInto`.
- `mw/app.py`, `mw/__main__.py` and `mw/display.py` are not part of this model (readline wiring, option parsing, file decoding, waveform rendering).
- The `Stack`/`StackFrame` methods that `mw/commands.py` calls but `mw/stack.py` does not define are not modelled: `loop`, `append`, `prepend`, `create_new`, `normalize`, `fade_in`/`fade_out` as pydub calls, and `split(at)`. The commands that call them (`loop`, `append`, `prepend`, `new`, `normalize`, `split`, `fadein`, `fadeout`, `play`, `export`) give the outcome `Outside`.
- Commands.LeftOutKeeps: the status `Ok` that `Commands.Apply` gives the left-out commands is a placeholder. With `mw/stack.py` as it stands, `new`, and `loop` and `normalize` on a non-empty stack, and `append` and `prepend` with two or more entries, raise AttributeError, because the `Stack`/`StackFrame` methods they call are not defined. `split` on a non-empty stack raises TypeError, because it passes the in bound to `def split(self)` (mw/stack.py:127). `fadein` and `fadeout` may fail the range assertions at mw/stack.py:77 and :81. `play` and `export` do audio I/O. Every one of these fails before any frame changes, which is all the dispatchers promise (`Outside` carries no status).
- Handler.OthersKeep: the status `Ok` that `Handler.Apply` gives `setw` is a placeholder: `int(width)` (mw/command_handler.py:109) raises ValueError for a width that is not a number. The dispatchers report `setw` as `Outside`, which carries no status, and it changes no frame either way.
- Audio.PyIndex: the model assumes AudioSegment slices like a Python sequence (`Audio.Slice`), clamping a position below `-len` at 0. The pydub library is not part of this model, and its slicing may treat such a position differently, for example by padding the missing frames or raising. So a bound below `-len` (for example `i -1500` and then `crop` on a 1000 ms clip) is modelled only under that assumption.
- Digits are ASCII only. Python's `str.isdigit` and the grammar's `number` token `-?\d+` (mw/commands.py:20) also accept other Unicode digits, and `int()` accepts underscores between digits. `Sessions.IsIntText` and `Grammar.ParseNumber` do not model those forms.
- Handler.CommandHandler.Handle: an underscore word other than `_handle` gives the outcome `Private`, which keeps every frame. The handler's only other underscore method, `_available_commands` (mw/command_handler.py:42), raises TypeError when given the application. The attributes every Python object has act on the handler, not on the application's stack. Whether `hasattr` finds a given underscore name depends on Python's object model, which is not modelled.
- `Stack.split` also assigns `cursor`, `in_point` and `out_point` on the stack object itself (mw/stack.py:137-139). No reader uses these attributes, and they are not modelled.
- Commands.CommandHandler.Crop: the two `assert ... is not None` checks are modelled as results. Bounds resolution always sets both bounds when there is a top frame, so they cannot fail after `HandleCommand`; this is not stated as a contract.
- Stacks.StackFrame.Bloop: modelled with the corrected guard `<=` (see Findings); `Stacks.BloopGuardAsWritten` holds the guard `<` as written.
- Stacks.BloopState: uses the corrected guard, so a selection that ends at the clip's end succeeds where the code as written raises AssertionError.
- Stacks.BloopStateContents: stated for the corrected guard; under the guard as written it fails for a selection that ends at the clip's end.
- Commands.CommandHandler.Bloop: calls the frame's bloop with the corrected guard, so `bloop` on a selection that ends at the clip's end succeeds in the model and raises AssertionError in the code.
- Commands.ApplyTop: its `bloop` case, and so `Commands.Apply` and the dispatchers that state their effect through it, use the corrected guard.
- Stacks.StackFrame.Pad: modelled with the corrected difference (see Findings); `Stacks.PaddedAsWritten` holds the code as written.
- Completion is proved for all inputs, with no concrete example lemma over the 27 literal names.
- Grammar.ParseFormat: an argument that is a bare word starting with '"' (such as `"x`) and that holds no second '"' can be parsed, but the round trip does not cover it. Whether it reads back depends on the text after it, since the quoted alternative is tried first.

## Findings

| source | as written | input that shows it | evidently intended | confidence | as-written member | corrected member |
|---|---|---|---|---|---|---|
| mw/stack.py:95 | `to_add = len(self.segment) - to_length` | a 500 ms clip padded to 1000 ms stays 500 ms; a 1000 ms clip padded to 500 ms grows to 1500 ms | `to_add = to_length - len(self.segment)`, which pads up to `to_length` | high, not executed | Stacks.PaddedAsWrittenWrong | Stacks.PaddedContents |
| mw/stack.py:68 | `assert at + duration < len(self.segment)` | a frame with no in or out point: the default selection is the whole clip, `0 + len < len` fails, and `bloop()` always raises | `at + duration <= len(self.segment)`, which lets a selection end at the clip's end | medium, not executed | Stacks.BloopDefaultRejected | Stacks.BloopedContents |
