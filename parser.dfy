/**
 * The command parser: an optional one-character leading address followed
 * by one command letter. Everything after the letter is ignored.
 */
module Parser {
  import opened Wrappers
  import opened Commands

  /** The characters that start a leading address. */
  predicate IsAddressChar(c: char)
  {
    c in ".$-+;"
  }

  /**
   * The one character that denotes `ar` as a leading address, if any:
   * the grammar can only write these five address shapes.
   */
  function AddressText(ar: AddressOrRange<Address>): Option<char>
  {
    match ar
    case SingleAddress(Current) => Some('.')
    case SingleAddress(Last) => Some('$')
    case SingleAddress(NthPrevious(1)) => Some('-')
    case SingleAddress(NthNext(1)) => Some('+')
    case AddressRange(Current, Last) => Some(';')
    case _ => None
  }

  /**
   * Reads a leading address. On one of the five address characters it
   * consumes exactly that character; otherwise it consumes nothing.
   */
  function ParseLeadingAddress(s: string): (r: (Option<AddressOrRange<Address>>, string))
    ensures r.0.Some? <==> |s| > 0 && IsAddressChar(s[0])
    ensures r.0.Some? ==> r.1 == s[1..] && AddressText(r.0.value) == Some(s[0])
    ensures r.0.None? ==> r.1 == s
  {
    if |s| == 0 then (None, s)
    else match s[0]
      case '.' => (Some(SingleAddress(Current)), s[1..])
      case '$' => (Some(SingleAddress(Last)), s[1..])
      case '-' => (Some(SingleAddress(NthPrevious(1))), s[1..])
      case '+' => (Some(SingleAddress(NthNext(1))), s[1..])
      case ';' => (Some(AddressRange(Current, Last)), s[1..])
      case _ => (None, s)
  }

  /** Writing an address as its character and reading it back gives the address and the rest. */
  lemma LeadingAddressRoundTrip(ar: AddressOrRange<Address>, rest: string)
    requires AddressText(ar).Some?
    ensures ParseLeadingAddress([AddressText(ar).value] + rest) == (Some(ar), rest)
  {
  }

  /** The address a parsed command carries (`Quit` carries none). */
  function CarriedAddress(cmd: NedCommand): Option<AddressOrRange<Address>>
  {
    match cmd
    case Append(a) => Some(SingleAddress(a))
    case Insert(a) => Some(SingleAddress(a))
    case PrintLn(ar) => Some(ar)
    case Print(ar) => Some(ar)
    case Change(ar) => Some(ar)
    case Delete(ar) => Some(ar)
    case Quit => None
  }

  /**
   * Reads one command letter, given the leading address already read.
   * `a` and `i` take a single address, `n p c d` take an address or a
   * range, and a missing address defaults to the current line; `q` is
   * accepted only when no address was given.
   */
  function ParseCommand(s: string, addr: Option<AddressOrRange<Address>>): (r: Option<(NedCommand, string)>)
    ensures r.Some? <==>
              |s| > 0 &&
              (s[0] in "npcd" ||
               (s[0] in "ai" && !(addr.Some? && addr.value.AddressRange?)) ||
               (s[0] == 'q' && addr.None?))
    ensures r.Some? ==> r.value.1 == s[1..] && Letter(r.value.0) == s[0]
    ensures r.Some? && s[0] != 'q' ==>
              CarriedAddress(r.value.0) == Some(addr.UnwrapOr(SingleAddress(Current)))
  {
    // The source names this flag `addr_specified`, but it holds when NO address was given.
    var noAddress := addr.None?;
    var ar := addr.UnwrapOr(SingleAddress(Current));
    if |s| == 0 then None
    else match (s[0], ar, noAddress)
      case ('a', SingleAddress(x), _) => Some((Append(x), s[1..]))
      case ('i', SingleAddress(x), _) => Some((Insert(x), s[1..]))
      case ('n', x, _) => Some((PrintLn(x), s[1..]))
      case ('p', x, _) => Some((Print(x), s[1..]))
      case ('c', x, _) => Some((Change(x), s[1..]))
      case ('d', x, _) => Some((Delete(x), s[1..]))
      case ('q', _, true) => Some((Quit, s[1..]))
      case _ => None
  }

  /** Parses a whole command line, discarding whatever follows the letter. */
  function ParseCommandStr(s: string): (r: Option<NedCommand>)
    ensures r.Some? ==> |s| > 0
    ensures r.Some? ==>
              (!IsAddressChar(s[0]) && Letter(r.value) == s[0]) ||
              (IsAddressChar(s[0]) && |s| >= 2 && Letter(r.value) == s[1])
    ensures r.Some? && r.value != Quit && !IsAddressChar(s[0]) ==>
              CarriedAddress(r.value) == Some(SingleAddress(Current))
  {
    var (addresses, remainder) := ParseLeadingAddress(s);
    match ParseCommand(remainder, addresses)
    case Some((command, _)) => Some(command)
    case None => None
  }

  // ---------------------------------------------------------------------
  // The grammar as a set of words: an independent description of which
  // command-line prefixes denote which command.

  /** The texts that may stand before a command letter to denote `ar`. */
  function LeadingTexts(ar: AddressOrRange<Address>): set<string>
  {
    (if ar == SingleAddress(Current) then {""} else {})
    + (match AddressText(ar) case Some(c) => {[c]} case None => {})
  }

  function Spelled(prefixes: set<string>, letter: char): set<string>
  {
    set w | w in prefixes :: w + [letter]
  }

  /** Every command word (address text plus letter) that denotes `cmd`. */
  function Spellings(cmd: NedCommand): set<string>
  {
    match cmd
    case Quit => {"q"}
    case _ => Spelled(LeadingTexts(CarriedAddress(cmd).value), Letter(cmd))
  }

  /** A command is spelled by its address character followed by its letter... */
  lemma SpelledWithAddress(cmd: NedCommand)
    requires cmd != Quit && AddressText(CarriedAddress(cmd).value).Some?
    ensures [AddressText(CarriedAddress(cmd).value).value, Letter(cmd)] in Spellings(cmd)
  {
    var c := AddressText(CarriedAddress(cmd).value).value;
    assert [c] in LeadingTexts(CarriedAddress(cmd).value);
    assert [c, Letter(cmd)] == [c] + [Letter(cmd)];
  }

  /** ...and, when it addresses the current line, by its letter alone. */
  lemma SpelledWithoutAddress(cmd: NedCommand)
    requires CarriedAddress(cmd) == Some(SingleAddress(Current)) || cmd == Quit
    ensures [Letter(cmd)] in Spellings(cmd)
  {
    if cmd != Quit {
      assert "" in LeadingTexts(CarriedAddress(cmd).value);
      assert [Letter(cmd)] == "" + [Letter(cmd)];
    }
  }

  /** Any command word of `cmd`, followed by anything, parses to `cmd`. */
  lemma ParseComplete(cmd: NedCommand, w: string, rest: string)
    requires w in Spellings(cmd)
    ensures ParseCommandStr(w + rest) == Some(cmd)
  {
  }

  /** Whatever parses begins with one of the command words of its result. */
  lemma ParseSound(s: string)
    requires ParseCommandStr(s).Some?
    ensures exists w :: w in Spellings(ParseCommandStr(s).value) && w <= s
  {
    var cmd := ParseCommandStr(s).value;
    if IsAddressChar(s[0]) {
      var w := s[..2];
      assert [s[0]] in LeadingTexts(CarriedAddress(cmd).value);
      assert w == [s[0]] + [Letter(cmd)];
      assert w in Spellings(cmd);
    } else {
      var w := s[..1];
      assert w == [Letter(cmd)];
      if cmd != Quit {
        assert "" in LeadingTexts(CarriedAddress(cmd).value);
        assert w == "" + [Letter(cmd)];
      }
      assert w in Spellings(cmd);
    }
  }

  /** The result depends on the first two characters only. */
  lemma TailIgnored(s: string, t: string)
    requires |s| >= 2
    ensures ParseCommandStr(s) == ParseCommandStr(s[..2] + t)
  {
  }

  /** Without a leading address the result depends on the first character only. */
  lemma TailIgnoredWithoutAddress(s: string, t: string)
    requires |s| >= 1 && !IsAddressChar(s[0])
    ensures ParseCommandStr(s) == ParseCommandStr(s[..1] + t)
  {
  }

  /** The rejections the grammar makes: ranges on `a`/`i`, addresses on `q`, unknown letters. */
  lemma ParseRejections(c: char, rest: string)
    ensures ParseCommandStr(";a" + rest) == None
    ensures ParseCommandStr(";i" + rest) == None
    ensures IsAddressChar(c) ==> ParseCommandStr([c, 'q'] + rest) == None
    ensures !IsAddressChar(c) && c !in "aincpdq" ==> ParseCommandStr([c] + rest) == None
    ensures ParseCommandStr("") == None
  {
  }
}
