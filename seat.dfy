/** A seat on an aircraft, such as "12A": a row number of at least 1 and an
    upper-case letter. */
module Seats {
  import opened Common
  import Decimal

  datatype SeatFields = SeatFields(row: U16, letter: char)

  /** Only well-formed seats exist once construction has succeeded. */
  type Seat = s: SeatFields | 1 <= s.row && IsUpper(s.letter) witness SeatFields(1, 'A')

  /** The validating constructor: row 0 is refused, a lower-case letter is turned
      into its upper-case form, and anything that is then not A-Z is refused. */
  function NewSeat(row: U16, letter: char): (r: Option<Seat>)
    ensures r.Some? <==> row != 0 && IsLetter(letter)
    ensures r.Some? ==> r.value.row == row && r.value.letter == ToUpper(letter)
  {
    if row == 0 then None
    else
      var normalised := if IsLower(letter) then ToUpper(letter) else letter;
      if !IsUpper(normalised) then None else Some(SeatFields(row, normalised))
  }

  /** `to_string`: the row in decimal followed by the letter. */
  function ToString(s: Seat): (str: string)
    ensures |str| >= 2 && str[|str| - 1] == s.letter
    ensures Decimal.AllDigits(str[..|str| - 1]) && Decimal.FromDigits(str[..|str| - 1]) == s.row
    ensures str[0] != '0'
  {
    Decimal.FromToDecimal(s.row);
    var digits := Decimal.ToDecimal(s.row);
    assert (digits + [s.letter])[..|digits|] == digits;
    digits + [s.letter]
  }

  /** Distinct seats never render alike, so the text identifies the seat. */
  lemma ToStringInjective(a: Seat, b: Seat)
    requires ToString(a) == ToString(b)
    ensures a == b
  {
    var sa, sb := ToString(a), ToString(b);
    assert sa[..|sa| - 1] == sb[..|sb| - 1];
  }

  /** `operator<=>`: by row first, then by letter. */
  function Compare(a: Seat, b: Seat): (r: Ordering)
    ensures r == Equal <==> a == b
    ensures a.row < b.row ==> r == Less
    ensures a.row == b.row && a.letter < b.letter ==> r == Less
  {
    if a.row < b.row then Less
    else if b.row < a.row then Greater
    else if a.letter < b.letter then Less
    else if b.letter < a.letter then Greater
    else Equal
  }

  /** The seat order is a strong total order. */
  lemma CompareIsStrongOrder(a: Seat, b: Seat, c: Seat)
    ensures Compare(b, a) == Reverse(Compare(a, b))
    ensures Compare(a, b) == Less && Compare(b, c) == Less ==> Compare(a, c) == Less
    ensures Compare(a, b) == Less || a == b || Compare(b, a) == Less
  {
  }

  /** Equality is field-wise (`= default`). */
  lemma EqualityIsFieldwise(a: Seat, b: Seat)
    ensures a == b <==> a.row == b.row && a.letter == b.letter
  {
  }

  /** Row 0 is refused; `Seat(1, 'g')` is seat 1G; "12A" renders as such. */
  lemma Examples()
    ensures NewSeat(0, 'A') == None
    ensures NewSeat(1, 'g') == Some(SeatFields(1, 'G'))
    ensures NewSeat(3, '7') == None
    ensures ToString(SeatFields(12, 'A')) == "12A"
  {
  }
}
