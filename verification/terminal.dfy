/** Bytes and the three ECMA-48 control functions the redraw engine writes:
    Cursor Up (CUU, section 8.3.22), Erase in Line (EL, section 8.3.41) and
    Erase in Display (ED, section 8.3.39), all introduced by the two-byte
    Control Sequence Introducer ESC '[' (section 5.4). The program writes them
    as hard-coded strings; the parameter of CUU is printed with printf's `%ld`. */
module Terminal {

  /** One octet, as read by `fgetc` (which returns 0..255 for data and EOF only at the end). */
  newtype byte = x: int | 0 <= x < 256

  const Newline: byte := 10         // '\n'
  const CarriageReturn: byte := 13  // '\r'
  const Escape: byte := 27          // '\033'
  const LeftBracket: byte := 91     // '['
  const FinalA: byte := 65          // 'A', final byte of CUU
  const FinalJ: byte := 74          // 'J', final byte of ED
  const FinalK: byte := 75          // 'K', final byte of EL
  const Zero: byte := 48            // '0'

  /** "\033[K": erase from the cursor to the end of the line (EL, parameter defaulted to 0). */
  const EraseInLine: seq<byte> := [Escape, LeftBracket, FinalK]

  /** "\033[J": erase from the cursor to the end of the screen (ED, parameter defaulted to 0). */
  const EraseInDisplay: seq<byte> := [Escape, LeftBracket, FinalJ]

  predicate IsDigit(b: byte) {
    Zero <= b <= Zero + 9
  }

  predicate AllDigits(s: seq<byte>) {
    forall i :: 0 <= i < |s| ==> IsDigit(s[i])
  }

  /** The decimal digits printf writes for a non-negative `%ld` argument. */
  function Decimal(n: nat): (s: seq<byte>)
    ensures 1 <= |s|
    ensures AllDigits(s)
    ensures 0 < n ==> s[0] != Zero
    ensures n < 10 <==> |s| == 1
    decreases n
  {
    if n < 10 then [Zero + n as byte] else Decimal(n / 10) + [Zero + (n % 10) as byte]
  }

  /** Reads a run of decimal digits back as a number (the terminal's view of a CSI parameter). */
  function ParseDecimal(s: seq<byte>): nat
    requires AllDigits(s)
    decreases |s|
  {
    if |s| == 0 then 0
    else ParseDecimal(s[..|s| - 1]) * 10 + (s[|s| - 1] - Zero) as nat
  }

  lemma {:induction false} DecimalRoundTrip(n: nat)
    ensures ParseDecimal(Decimal(n)) == n
    decreases n
  {
    if n >= 10 {
      var s := Decimal(n);
      DecimalRoundTrip(n / 10);
      assert s[..|s| - 1] == Decimal(n / 10);
    }
  }

  /** Different line counts are announced with different digit strings. */
  lemma DecimalInjective(m: nat, n: nat)
    ensures Decimal(m) == Decimal(n) ==> m == n
  {
    DecimalRoundTrip(m);
    DecimalRoundTrip(n);
  }

  /** The bytes of `fprintf(stderr, "\r\033[%ldA", n)`: return to column 0, then CUU with parameter n. */
  function CursorUp(n: nat): (s: seq<byte>)
    ensures |s| >= 5
    ensures s[0] == CarriageReturn && s[1] == Escape && s[2] == LeftBracket
    ensures s[|s| - 1] == FinalA
    ensures AllDigits(s[3..|s| - 1])
    ensures Newline !in s
  {
    [CarriageReturn, Escape, LeftBracket] + Decimal(n) + [FinalA]
  }

  /** How a terminal reads a stderr write: a carriage return followed by one CUU
      control sequence moving up `lines` lines, or anything else. */
  datatype CursorMove = NotCursorUp | CursorUpBy(lines: nat)

  /** A terminal's reading of a carriage return followed by one CUU control sequence. */
  function ParseCursorUp(s: seq<byte>): CursorMove
  {
    if |s| >= 5 && s[0] == CarriageReturn && s[1] == Escape && s[2] == LeftBracket
       && s[|s| - 1] == FinalA && AllDigits(s[3..|s| - 1])
    then CursorUpBy(ParseDecimal(s[3..|s| - 1]))
    else NotCursorUp
  }

  /** The cursor-up command moves the cursor up exactly the number of lines it was given. */
  lemma CursorUpRoundTrip(n: nat)
    ensures ParseCursorUp(CursorUp(n)) == CursorUpBy(n)
  {
    var s := CursorUp(n);
    assert s[3..|s| - 1] == Decimal(n);
    DecimalRoundTrip(n);
  }
}
