/** Small value types shared by the facade and the list models. */
module Common {

  datatype Option<+T> = None | Some(value: T)

  /** The range check the facade applies before narrowing an `int` to a
      seed style, language or strength: `0 <= x <= uint8 max`. */
  predicate InByteRange(x: int) {
    0 <= x <= 255
  }

  /** `static_cast<std::uint8_t>(x)`: conversion to an unsigned 8-bit value
      keeps the value modulo 256. */
  function Byte(x: int): (b: int)
    ensures 0 <= b < 256
    ensures InByteRange(x) ==> b == x
    ensures (x - b) % 256 == 0
  {
    x % 256
  }

  function Max(a: int, b: int): (m: int)
    ensures a <= m && b <= m && (m == a || m == b)
  {
    if a < b then b else a
  }

  /** The number of bytes UTF-8 uses for one character. */
  function Utf8Width(c: char): (n: nat)
    ensures 1 <= n <= 4
    ensures c as int < 0x80 <==> n == 1
  {
    if c as int < 0x80 then 1
    else if c as int < 0x800 then 2
    else if c as int < 0x10000 then 3
    else 4
  }

  /** `std::string::size()` of a name: its length in UTF-8 bytes. */
  function Utf8Length(s: string): (n: nat) {
    if s == [] then 0 else Utf8Width(s[0]) + Utf8Length(s[1..])
  }

  /** Between one and four bytes per character, and one per character
      exactly when every character is ASCII. */
  lemma {:induction false} Utf8LengthBounds(s: string)
    ensures |s| <= Utf8Length(s) <= 4 * |s|
    ensures Utf8Length(s) == |s| <==> forall i :: 0 <= i < |s| ==> s[i] as int < 0x80
  {
    if s != [] {
      Utf8LengthBounds(s[1..]);
      assert forall i :: 1 <= i < |s| ==> s[1..][i - 1] == s[i];
    }
  }
}
