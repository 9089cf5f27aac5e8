/**
 * The address reifier: resolves a symbolic address against the buffer's
 * length and the cursor to a 1-based line number, rejecting every value
 * outside [1, length]. It reads nothing else of the editor state.
 */
module Reifier {
  import opened Wrappers
  import opened Commands

  /** The line an address means, as an unbounded integer (it may be 0 or negative). */
  function Target(a: Address, len: nat, cursor: nat): int
  {
    match a
    case Current => cursor
    case Last => len
    case Nth(n) => n
    case NthPrevious(n) => cursor - n
    case NthNext(n) => cursor + n
  }

  /**
   * Resolves `a` as the source does on machine integers. A subtraction
   * `cursor - n` with `n > cursor` would underflow the unsigned cursor;
   * here it is a failure, never a wrapped-around value.
   */
  function Reify(a: Address, len: nat, cursor: nat): (r: Option<nat>)
    ensures r.Some? <==> 1 <= Target(a, len, cursor) <= len
    ensures r.Some? ==> r.value == Target(a, len, cursor)
  {
    var raw: Option<nat> :=
      match a
      case Current => Some(cursor)
      case Last => Some(len)
      case Nth(n) => Some(n)
      case NthPrevious(n) => if n <= cursor then Some(cursor - n) else None
      case NthNext(n) => Some(cursor + n);
    match raw
    case None => None
    case Some(v) => if v < 1 then None else if v > len then None else Some(v)
  }

  /**
   * Resolves both endpoints of a range independently, keeping the shape;
   * no order between the two endpoints is required.
   */
  function ReifyAddressOrRange(ar: AddressOrRange<Address>, len: nat, cursor: nat): (r: Option<AddressOrRange<nat>>)
    ensures r.Some? <==>
              match ar
              case SingleAddress(a) => Reify(a, len, cursor).Some?
              case AddressRange(a1, a2) => Reify(a1, len, cursor).Some? && Reify(a2, len, cursor).Some?
    ensures r.Some? ==> r.value.SingleAddress? == ar.SingleAddress?
    ensures r.Some? && ar.SingleAddress? ==> r.value.at == Target(ar.at, len, cursor)
    ensures r.Some? && ar.AddressRange? ==>
              r.value.first == Target(ar.first, len, cursor) &&
              r.value.second == Target(ar.second, len, cursor)
  {
    match ar
    case SingleAddress(a) =>
      (match Reify(a, len, cursor)
       case Some(p) => Some(SingleAddress(p))
       case None => None)
    case AddressRange(a1, a2) =>
      (match Reify(a1, len, cursor)
       case None => None
       case Some(p1) =>
         match Reify(a2, len, cursor)
         case None => None
         case Some(p2) => Some(AddressRange(p1, p2)))
  }

  /** Every success lies in [1, len]; so an empty buffer rejects every address. */
  lemma ReifyInBounds(a: Address, len: nat, cursor: nat)
    ensures Reify(a, len, cursor).Some? ==> 1 <= Reify(a, len, cursor).value <= len
    ensures len == 0 ==> Reify(a, len, cursor) == None
  {
  }

  /** The boundary cases: `$` is the length, line 0 never exists, the cursor at 0 is no line. */
  lemma ReifyBoundaries(len: nat, cursor: nat, n: nat)
    ensures len > 0 ==> Reify(Last, len, cursor) == Some(len)
    ensures len == 0 ==> Reify(Last, len, cursor) == None
    ensures Reify(Nth(0), len, cursor) == None
    ensures cursor == 0 ==> Reify(Current, len, cursor) == None
    ensures n >= cursor ==> Reify(NthPrevious(n), len, cursor) == None
    ensures n > len ==> Reify(Nth(n), len, cursor) == None
  {
  }

  /**
   * Growing the buffer keeps every address but `$` where it was: the
   * result of the others depends on the length only through the bound.
   */
  lemma ReifyStableUnderGrowth(a: Address, len: nat, len': nat, cursor: nat)
    requires len <= len' && a != Last && Reify(a, len, cursor).Some?
    ensures Reify(a, len', cursor) == Reify(a, len, cursor)
  {
  }

  /** A range is reified without comparing its endpoints: a span that ends before it starts passes. */
  lemma RangeNotOrdered()
    ensures ReifyAddressOrRange(AddressRange(Last, Current), 3, 1) == Some(AddressRange(3, 1))
  {
  }
}
