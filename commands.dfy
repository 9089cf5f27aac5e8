/**
 * The address model and the command vocabulary of the editor: symbolic
 * addresses, single addresses or ranges of them, and the parsed commands.
 * These are plain values; bounds are applied only by the reifier.
 */
module Commands {

  /** A symbolic reference to one line of the buffer. */
  datatype Address =
    | Current               // the cursor
    | Last                  // the buffer's length
    | Nth(n: nat)           // an explicit line number
    | NthPrevious(n: nat)   // the cursor minus n
    | NthNext(n: nat)       // the cursor plus n

  /** One address, or an inclusive span between two. */
  datatype AddressOrRange<T> =
    | SingleAddress(at: T)
    | AddressRange(first: T, second: T)

  datatype NedCommand =
    | Append(addr: Address)
    | Insert(addr: Address)
    | PrintLn(span: AddressOrRange<Address>)
    | Print(span: AddressOrRange<Address>)
    | Change(span: AddressOrRange<Address>)
    | Delete(span: AddressOrRange<Address>)
    | Quit

  /** The letter that selects each command. */
  function Letter(cmd: NedCommand): char
  {
    match cmd
    case Append(_) => 'a'
    case Insert(_) => 'i'
    case PrintLn(_) => 'n'
    case Print(_) => 'p'
    case Change(_) => 'c'
    case Delete(_) => 'd'
    case Quit => 'q'
  }
}
