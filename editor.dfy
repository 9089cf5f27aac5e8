/**
 * The command executor and the editor state: a line buffer and a cursor,
 * built from the file text, and `RunCommand`, which parses one command
 * line and applies it. Only appending changes the buffer; every other
 * parsed command leaves the state as it is.
 */
module Editor {
  import opened Wrappers
  import opened Commands
  import opened Parser
  import opened Reifier
  import opened Lines

  /**
   * How running a command ends: `Done` and `Rejected` are the source's
   * `Some(())` and `None`; `Panicked` is a `Vec::insert` at an index past
   * the end of the buffer, which aborts the program.
   */
  datatype Outcome = Done | Rejected | Panicked

  /** The editor state as a value. */
  datatype Snapshot = Snapshot(lines: seq<string>, cursor: nat)

  /** The state invariant: at least one line, and the cursor below the length. */
  predicate WellFormed(lines: seq<string>, cursor: nat)
  {
    1 <= |lines| && cursor < |lines|
  }

  /**
   * The state the editor starts from: the text split on every newline,
   * and the cursor one below the number of lines.
   */
  function Initial(text: string): (s: Snapshot)
    ensures |s.lines| == Count(text, '\n') + 1
    ensures s.cursor == |s.lines| - 1
    ensures NoNewlines(s.lines) && Join(s.lines) == text
    ensures WellFormed(s.lines, s.cursor)
  {
    JoinSplit(text);
    var lines := Split(text);
    Snapshot(lines, |lines| - 1)
  }

  /**
   * What appending `input` at `addr` does to `lines`, in closed form. The
   * source reifies `addr` again before every inserted line and inserts the
   * i-th line at that position plus i. With no input nothing happens, even
   * for a bad address. A bad address rejects before anything is inserted:
   * the cursor does not change and only `$` resolves to a different line
   * once the buffer grows. With `$`, the second line's position is the new
   * length plus one, one past the last position an insert accepts, so the
   * insert panics with the first line already appended.
   */
  function AppendLines(addr: Address, lines: seq<string>, cursor: nat, input: seq<string>): (r: (Outcome, seq<string>))
    ensures r.0 == Rejected <==> |input| > 0 && Reify(addr, |lines|, cursor).None?
    ensures r.0 == Rejected ==> r.1 == lines
    ensures |input| == 0 ==> r == (Done, lines)
    ensures |r.1| >= |lines|
  {
    if |input| == 0 then (Done, lines)
    else match Reify(addr, |lines|, cursor)
      case None => (Rejected, lines)
      case Some(p) =>
        if addr == Last && |input| >= 2 then (Panicked, lines + [input[0]])
        else (Done, lines[..p] + input + lines[p..])
  }

  /** What running a parsed command does to the buffer. */
  function Execute(parsed: Option<NedCommand>, lines: seq<string>, cursor: nat, input: seq<string>): (r: (Outcome, seq<string>))
    ensures r.0 == Rejected <==>
              parsed.None? ||
              (parsed.value.Append? && |input| > 0 && Reify(parsed.value.addr, |lines|, cursor).None?)
    ensures r.0 == Panicked ==> parsed == Some(Append(Last)) && |input| >= 2
    ensures r.0 != Done ==> |r.1| <= |lines| + 1
  {
    match parsed
    case None => (Rejected, lines)
    case Some(Append(addr)) => AppendLines(addr, lines, cursor, input)
    case Some(_) => (Done, lines)
  }

  /**
   * Appending after a line `p` that resolves, for every address but `$`
   * (and for `$` with one line), splices the input in right after line `p`:
   * the lines before and after keep their order, and lines p+1 .. p+n are
   * exactly the input.
   */
  lemma AppendSplices(addr: Address, lines: seq<string>, cursor: nat, input: seq<string>, p: nat)
    requires Reify(addr, |lines|, cursor) == Some(p) && |input| > 0
    requires addr != Last || |input| == 1
    ensures AppendLines(addr, lines, cursor, input).0 == Done
    ensures var after := AppendLines(addr, lines, cursor, input).1;
            |after| == |lines| + |input| &&
            after[..p] == lines[..p] &&
            after[p..p + |input|] == input &&
            after[p + |input|..] == lines[p..]
  {
  }

  /** Appending two or more lines after `$` panics whenever `$` resolves. */
  lemma AppendAfterLastPanics(lines: seq<string>, cursor: nat, input: seq<string>)
    requires |lines| >= 1 && |input| >= 2
    ensures AppendLines(Last, lines, cursor, input) == (Panicked, lines + [input[0]])
  {
  }

  /** One line appended after `$` goes to the end of the buffer. */
  lemma AppendOneAfterLast(lines: seq<string>, cursor: nat, line: string)
    requires |lines| >= 1
    ensures AppendLines(Last, lines, cursor, [line]) == (Done, lines + [line])
  {
    assert Reify(Last, |lines|, cursor) == Some(|lines|);
    assert lines[..|lines|] + [line] + lines[|lines|..] == lines + [line];
  }

  /**
   * Only an append with some input changes the buffer; a parse failure is
   * rejected and every other command is a no-op that succeeds.
   */
  lemma ExecuteChangesOnlyOnAppend(parsed: Option<NedCommand>, lines: seq<string>, cursor: nat, input: seq<string>)
    ensures parsed.None? ==> Execute(parsed, lines, cursor, input) == (Rejected, lines)
    ensures parsed.Some? && !parsed.value.Append? ==> Execute(parsed, lines, cursor, input) == (Done, lines)
    ensures Execute(parsed, lines, cursor, input).1 != lines ==>
              parsed.Some? && parsed.value.Append? && |input| > 0 &&
              Reify(parsed.value.addr, |lines|, cursor).Some?
  {
  }

  /** Running any command keeps the state invariant and never shrinks the buffer. */
  lemma ExecutePreservesWellFormed(parsed: Option<NedCommand>, lines: seq<string>, cursor: nat, input: seq<string>)
    requires WellFormed(lines, cursor)
    ensures WellFormed(Execute(parsed, lines, cursor, input).1, cursor)
    ensures |Execute(parsed, lines, cursor, input).1| >= |lines|
  {
  }

  /**
   * An empty file loads as one empty line with the cursor on line 0, so a
   * bare `a` is rejected while `$a` appends after that empty line.
   */
  lemma EmptyFileSession()
    ensures Initial("") == Snapshot([""], 0)
    ensures Execute(ParseCommandStr("a\n"), [""], 0, ["hello"]) == (Rejected, [""])
    ensures Execute(ParseCommandStr("$a\n"), [""], 0, ["hello"]) == (Done, ["", "hello"])
  {
    assert ("$a\n")[1..] == "a\n";
    assert ParseCommandStr("$a\n") == Some(Append(Last));
    assert Reify(Last, 1, 0) == Some(1);
    assert [""][..1] + ["hello"] + [""][1..] == ["", "hello"];
  }

  /** A three-line file loads as three lines with the cursor on line 2. */
  lemma ThreeLineFile()
    ensures Initial("one\ntwo\nthree") == Snapshot(["one", "two", "three"], 2)
  {
    SplitJoin(["one", "two", "three"]);
    assert Join(["one", "two", "three"]) == "one\ntwo\nthree";
  }

  /** On that file, with the cursor on line 2, `.a` appends after line 2. */
  lemma ThreeLineAppendCurrent()
    ensures Execute(ParseCommandStr(".a\n"), ["one", "two", "three"], 2, ["x", "y"]) == (Done, ["one", "two", "x", "y", "three"])
  {
    SpelledWithAddress(Append(Current));
    ParseComplete(Append(Current), ".a", "\n");
    assert ".a" + "\n" == ".a\n";
    var lines := ["one", "two", "three"];
    assert lines[..2] + ["x", "y"] + lines[2..] == ["one", "two", "x", "y", "three"];
  }

  /** `-a` appends after line 1 and `+a` after line 3. */
  lemma ThreeLineAppendNeighbours()
    ensures Execute(ParseCommandStr("-a\n"), ["one", "two", "three"], 2, ["x"]) == (Done, ["one", "x", "two", "three"])
    ensures Execute(ParseCommandStr("+a\n"), ["one", "two", "three"], 2, ["x"]) == (Done, ["one", "two", "three", "x"])
  {
    SpelledWithAddress(Append(NthPrevious(1)));
    ParseComplete(Append(NthPrevious(1)), "-a", "\n");
    assert "-a" + "\n" == "-a\n";
    SpelledWithAddress(Append(NthNext(1)));
    ParseComplete(Append(NthNext(1)), "+a", "\n");
    assert "+a" + "\n" == "+a\n";
    var lines := ["one", "two", "three"];
    assert lines[..1] + ["x"] + lines[1..] == ["one", "x", "two", "three"];
    assert lines[..3] + ["x"] + lines[3..] == ["one", "two", "three", "x"];
  }

  /** `$a` with two lines panics after appending the first. */
  lemma ThreeLineAppendLast()
    ensures Execute(ParseCommandStr("$a\n"), ["one", "two", "three"], 2, ["x", "y"]) == (Panicked, ["one", "two", "three", "x"])
  {
    SpelledWithAddress(Append(Last));
    ParseComplete(Append(Last), "$a", "\n");
    assert "$a" + "\n" == "$a\n";
    AppendAfterLastPanics(["one", "two", "three"], 2, ["x", "y"]);
    assert ["one", "two", "three"] + [["x", "y"][0]] == ["one", "two", "three", "x"];
  }

  /** On that file, `;a` and an unknown letter are rejected and `p` changes nothing. */
  lemma ThreeLineOthers()
    ensures Execute(ParseCommandStr(";a\n"), ["one", "two", "three"], 2, ["x"]) == (Rejected, ["one", "two", "three"])
    ensures Execute(ParseCommandStr("z\n"), ["one", "two", "three"], 2, []) == (Rejected, ["one", "two", "three"])
    ensures Execute(ParseCommandStr("p\n"), ["one", "two", "three"], 2, []) == (Done, ["one", "two", "three"])
  {
  }

  class NedState {
    var lineBuffer: seq<string>
    var currentAddress: nat

    function State(): Snapshot
      reads this
    {
      Snapshot(lineBuffer, currentAddress)
    }

    ghost predicate Valid()
      reads this
    {
      WellFormed(lineBuffer, currentAddress)
    }

    /** The editor's state after loading `text`. */
    constructor (text: string)
      ensures State() == Initial(text)
      ensures Valid()
    {
      var lines := Split(text);
      lineBuffer := lines;
      currentAddress := |lines| - 1;
    }

    /**
     * Parses `commandStr` and runs it; `input` stands for the lines the
     * operator types after an append command, up to the lone ".".
     */
    method RunCommand(commandStr: string, input: seq<string>) returns (outcome: Outcome)
      modifies this
      ensures currentAddress == old(currentAddress)
      ensures (outcome, lineBuffer) == Execute(ParseCommandStr(commandStr), old(lineBuffer), old(currentAddress), input)
      ensures old(Valid()) ==> Valid()
    {
      match ParseCommandStr(commandStr)
      case Some(Append(addr)) =>
        ghost var before := lineBuffer;
        ghost var p: nat := if Reify(addr, |before|, currentAddress).Some?
                            then Reify(addr, |before|, currentAddress).value else 0;
        for i := 0 to |input|
          invariant currentAddress == old(currentAddress)
          invariant i == 0 ==> lineBuffer == before
          invariant i > 0 ==> Reify(addr, |before|, currentAddress) == Some(p)
          invariant i > 0 ==> lineBuffer == before[..p] + input[..i] + before[p..]
          invariant i > 0 && addr == Last ==> i == 1
        {
          var reified := Reify(addr, |lineBuffer|, currentAddress);
          if reified.None? {
            if i > 0 && addr != Last {
              ReifyStableUnderGrowth(addr, |before|, |lineBuffer|, currentAddress);
            }
            return Rejected;
          }
          var at := reified.value + i;
          if at > |lineBuffer| {
            if i > 0 && addr != Last {
              ReifyStableUnderGrowth(addr, |before|, |lineBuffer|, currentAddress);
            }
            assert i == 1 && addr == Last;
            assert lineBuffer == before + [input[0]] by {
              assert input[..1] == [input[0]];
              assert p == |before|;
            }
            return Panicked;
          }
          if i > 0 {
            if addr != Last {
              ReifyStableUnderGrowth(addr, |before|, |lineBuffer|, currentAddress);
            }
            assert addr != Last;
            assert at == p + i;
            assert lineBuffer[..at] == before[..p] + input[..i];
            assert lineBuffer[at..] == before[p..];
            assert input[..i + 1] == input[..i] + [input[i]];
          } else {
            assert at == p;
            assert input[..1] == [input[i]];
          }
          lineBuffer := lineBuffer[..at] + [input[i]] + lineBuffer[at..];
        }
        assert |input| > 0 ==> input[..|input|] == input;
        outcome := Done;
      case Some(_) =>
        outcome := Done;
      case None =>
        outcome := Rejected;
    }
  }

  /** A client of the class: what a caller can conclude from the contracts alone. */
  method ClientSession()
  {
    var state := new NedState("one\ntwo\nthree");
    ThreeLineFile();
    assert state.lineBuffer == ["one", "two", "three"] && state.currentAddress == 2;
    var outcome := state.RunCommand(".a\n", ["x", "y"]);
    ThreeLineAppendCurrent();
    assert outcome == Done && state.lineBuffer == ["one", "two", "x", "y", "three"];
    assert state.currentAddress == 2 && state.Valid();
  }
}
