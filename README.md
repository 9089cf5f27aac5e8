# ned: addresses, parsing and the command engine of a minimal line editor

`ned` is a line editor in the style of `ed`. It keeps the file as a list of
lines and a cursor (the "current address"), reads terse commands such as
`.a` or `$a`, resolves the symbolic address in each command to a line
number, and applies the command. This project models that engine in Dafny
and proves what it does:

- `commands.dfy` (module `Commands`): the symbolic `Address`, the
  `AddressOrRange` of one address or a span, and the parsed `NedCommand`,
  one datatype per enum of src/main.rs:42-63 with the same variants.
- `parser.dfy` (module `Parser`): the one-character-lookahead parser. A
  command line is an optional leading address (`.` `$` `-` `+` `;`) and one
  command letter (`a i n p c d q`); the rest of the line is ignored. Beside
  it, the grammar is written out a second time as the set of command words
  that denote each command (`Spellings`), and the parser is proved sound and
  complete against that set.
- `reifier.dfy` (module `Reifier`): resolution of an address against the
  buffer length and the cursor to a 1-based line number in `[1, length]`,
  and of a span endpoint by endpoint. Its reference is `Target`, the line an
  address means as an unbounded integer.
- `lines.dfy` (module `Lines`): splitting the file text on every newline, as
  the editor does at start-up, and joining back; the two are proved inverse.
- `editor.dfy` (module `Editor`): the editor state as the class `NedState`
  (fields `lineBuffer` and `currentAddress`), its constructor from the file
  text, and `RunCommand`, which parses a command line and runs it.
  `RunCommand` is imperative, like the source: it loops over the lines to
  append, resolves the address again before every insertion and inserts in
  place. Its contract ties the new state to `Execute` and `AppendLines`, the
  closed-form meaning of a command, about which the properties are proved.

How a command ends is an `Outcome`: `Done` and `Rejected` are the source's
`Some(())` and `None`, and `Panicked` is a `Vec::insert` past the end of the
buffer. Appending two or more lines after `$` panics: the address is
resolved again after the first line went in, so it names the new last line
and the second insertion asks for position length plus one, one past the
last position `Vec::insert` accepts (`AppendAfterLastPanics`,
`ThreeLineAppendLast`). Every other address keeps its line as the buffer
grows (`ReifyStableUnderGrowth`), so it either fails before anything is
inserted or inserts the whole input right after its line (`AppendSplices`).

Where this code differs from a classic `ed`, the model follows the code:

- Digit addresses, `,` ranges and the `w` command are not parsed.
- Only `a` changes anything. `i n p c d q` parse and then do nothing
  (the code prints "not implemented"); `q` does not end the session.
- Appending does not move the cursor. The cursor starts one below the
  number of lines and never changes.
- A span is not checked for `start <= end` (`RangeNotOrdered`).
- An empty file loads as one empty line with the cursor at 0, so a bare
  `a` is rejected there and `$a` appends after the empty line
  (`EmptyFileSession`).
- Appending zero lines succeeds whatever the address, because the address
  is resolved only inside the loop over the input lines.

## Model

| member | source | states |
|---|---|---|
| Parser.ParseLeadingAddress | src/main.rs:65-74 | a leading address is read exactly when the first character is one of `. $ - + ;`; it consumes that one character and the address read is the one that character denotes; otherwise the input is returned unchanged |
| Parser.LeadingAddressRoundTrip | src/main.rs:65-74 | writing any of the five expressible addresses as its character and reading it back yields that address and the untouched rest |
| Parser.ParseCommand | src/main.rs:76-88 | succeeds exactly for `n p c d`, for `a i` unless a range was given, and for `q` only when no address was given; it consumes one letter, the command has that letter, and it carries the given address or `Current` by default |
| Parser.ParseCommandStr | src/main.rs:90-94 | on success the line is non-empty and the command's letter is its first character, or its second after an address character; with no leading address the command carries `Current`. The exact language it accepts is stated by ParseSound and ParseComplete |
| Parser.ParseComplete | src/main.rs:76-94 | every command word of a command (address text plus letter), followed by anything, parses to that command |
| Parser.ParseSound | src/main.rs:76-94 | whatever parses begins with one of the command words of the command it parses to |
| Parser.TailIgnored | src/main.rs:90-94 | the result, success or failure, depends only on the first two characters of the line |
| Parser.TailIgnoredWithoutAddress | src/main.rs:90-94 | when the line does not start with an address character, the result depends only on its first character |
| Parser.ParseRejections | src/main.rs:77-86 | `;a` and `;i` fail, any address before `q` fails, any other first character fails, and the empty line fails |
| Reifier.Reify | src/main.rs:117-131 | resolution succeeds exactly when the line the address means lies in `[1, length]`, and then yields that line; an underflowing cursor minus n is a failure, not a wrapped value |
| Reifier.ReifyInBounds | src/main.rs:126-130 | every resolved line lies in `[1, length]`, so an empty buffer rejects every address |
| Reifier.ReifyBoundaries | src/main.rs:117-131 | `$` resolves to the length of a non-empty buffer and fails on an empty one; line 0 never resolves; the cursor at 0 does not resolve; `-n` with n at least the cursor fails; a line number past the length fails |
| Reifier.ReifyStableUnderGrowth | src/main.rs:119-130 | every address but `$` resolves to the same line after the buffer grows |
| Reifier.ReifyAddressOrRange | src/main.rs:133-138 | succeeds exactly when each endpoint resolves on its own, keeps the single-or-span shape, and yields the endpoints' lines |
| Reifier.RangeNotOrdered | src/main.rs:133-138 | a span whose first endpoint lies after its second still resolves |
| Lines.Split | src/main.rs:142 | splitting yields one more line than the text has newlines, and no line contains a newline |
| Lines.JoinSplit | src/main.rs:142 | joining the split lines with newlines gives back the text |
| Lines.SplitJoin | src/main.rs:142 | splitting the join of one or more newline-free lines gives back those lines |
| Editor.Initial | src/main.rs:141-144 | the start state has one line per newline plus one, the cursor one below that count, lines that join back to the file text, and satisfies the state invariant |
| Editor.NedState.constructor | src/main.rs:141-144 | the constructed state is the start state of the text and is valid |
| Editor.AppendLines | src/main.rs:98-104 | an append is rejected exactly when there is input and the address does not resolve, and then leaves the buffer unchanged; with no input it succeeds without change whatever the address; it never shrinks the buffer |
| Editor.Execute | src/main.rs:97-107 | a command is rejected exactly when it does not parse or is an append with input at an address that does not resolve; it panics only for an append of two or more lines at `$`; a failed run adds at most one line. ExecuteChangesOnlyOnAppend states which runs leave the buffer unchanged |
| Editor.NedState.RunCommand | src/main.rs:96-109 | the cursor does not change, the outcome and new buffer are those of `Execute` on the parsed command (the loop inserts line i at the freshly resolved address plus i), and the state invariant is kept |
| Editor.AppendSplices | src/main.rs:98-104 | appending one or more lines after a resolving line p (at any address but `$`, or at `$` with a single line) succeeds, grows the buffer by the input's length, keeps the lines before and after p in order, and puts exactly the input at lines p+1 to p+n |
| Editor.AppendAfterLastPanics | src/main.rs:100-102 | appending two or more lines after `$` on a non-empty buffer panics with only the first line appended |
| Editor.AppendOneAfterLast | src/main.rs:100-102 | appending one line after `$` on a non-empty buffer adds it at the end |
| Editor.ExecuteChangesOnlyOnAppend | src/main.rs:96-109 | a parse failure is rejected and any other command than append succeeds, both without change; the buffer changes only for an append with input at a resolving address |
| Editor.ExecutePreservesWellFormed | src/main.rs:96-109 | running any command from a valid state leaves a valid state and never shrinks the buffer |
| Editor.EmptyFileSession | src/main.rs:141-143 | an empty file is one empty line with the cursor at 0; `a` is then rejected and `$a` appends after the empty line |
| Editor.ThreeLineFile | src/main.rs:142-143 | the text `one\ntwo\nthree` loads as three lines with the cursor at 2 |
| Editor.ThreeLineAppendCurrent | src/main.rs:98-104 | on those lines `.a` with two lines inserts them after line 2 |
| Editor.ThreeLineAppendNeighbours | src/main.rs:98-104 | on those lines `-a` inserts after line 1 and `+a` after line 3 |
| Editor.ThreeLineAppendLast | src/main.rs:100-102 | on those lines `$a` with two lines panics after appending the first |
| Editor.ThreeLineOthers | src/main.rs:106-107 | on those lines `;a` and `z` are rejected and `p` changes nothing |

## Left out

- `load_file` (src/main.rs:8-23): reading the file named on the command line is I/O; the model starts from the file text.
- `print_flush` and `run_input` (src/main.rs:25-40): console I/O; the lines typed after `a` up to the lone `.` are the `input` parameter of `RunCommand`.
- The read-eval loop of `run_editor` and its debug print of the buffer (src/main.rs:145-151): an endless interactive I/O loop; the model runs one command per call.
- The "not implemented" message (src/main.rs:106): console output; the model keeps only that the command succeeds and changes nothing.
- Reifier.Reify: an underflowing `NthPrevious` is a plain failure; a debug build of the source panics there, and a release build wraps to a huge value that the bounds check then rejects.
- Integer width: lengths, line numbers and the cursor are unbounded; the overflow of `NthNext` at the largest `usize` is not modelled.
- Editor.NedState.RunCommand: a `Panicked` outcome stands for the process aborting; the model returns with the buffer as it was when the failing insertion was attempted.
