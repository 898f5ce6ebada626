/** Public keys and event ids: thirty-two bytes, written as hexadecimal.

    A key is represented by its canonical text, sixty-four lower-case digits,
    so writing a key out is the identity. Reading one back accepts either
    case, which is why text that is not canonical can name the same key. */
module Keys {
  import opened Wrappers

  predicate IsLowerHexDigit(c: char) {
    '0' <= c <= '9' || 'a' <= c <= 'f'
  }

  predicate IsHexDigit(c: char) {
    IsLowerHexDigit(c) || 'A' <= c <= 'F'
  }

  predicate IsCanonical(s: string) {
    |s| == 64 && forall i :: 0 <= i < |s| ==> IsLowerHexDigit(s[i])
  }

  type Hex32 = s: string | IsCanonical(s) witness seq(64, _ => '0')
  type PublicKey = Hex32
  type EventId = Hex32

  function ToHex(k: Hex32): string {
    k
  }

  function LowerDigit(c: char): (r: char)
    requires IsHexDigit(c)
    ensures IsLowerHexDigit(r)
  {
    if 'A' <= c <= 'F' then ((c as int) + 32) as char else c
  }

  function FromHex(s: string): (r: Option<Hex32>) {
    if |s| == 64 && forall i :: 0 <= i < |s| ==> IsHexDigit(s[i]) then
      Some(seq(64, i requires 0 <= i < 64 => LowerDigit(s[i])))
    else
      None
  }

  /** The digit stands for the same number, in either case. */
  ghost predicate SameDigit(c: char, digit: char) {
    exists v :: 0 <= v < 16 && digit == "0123456789abcdef"[v] && (c == digit || c == "0123456789ABCDEF"[v])
  }

  /** Text is read as a key exactly if it is that key's text, digit by digit, in
      whatever case. */
  lemma ReadsIffSameDigits(s: string, k: Hex32)
    ensures FromHex(s) == Some(k) <==> |s| == 64 && forall i :: 0 <= i < 64 ==> SameDigit(s[i], k[i])
  {
    forall i | 0 <= i < |s| && i < 64
      ensures SameDigit(s[i], k[i]) <==> IsHexDigit(s[i]) && LowerDigit(s[i]) == k[i]
    {
      DigitsAgree(s[i], k[i]);
    }
    if |s| == 64 && forall i :: 0 <= i < 64 ==> SameDigit(s[i], k[i]) {
      assert FromHex(s).value == k;
    }
  }

  lemma DigitsAgree(c: char, digit: char)
    ensures SameDigit(c, digit) <==> IsHexDigit(c) && LowerDigit(c) == digit
  {
    var lower, upper := "0123456789abcdef", "0123456789ABCDEF";
    if IsHexDigit(c) && LowerDigit(c) == digit {
      var v := if digit <= '9' then digit as int - '0' as int else digit as int - 'a' as int + 10;
      assert digit == lower[v] && (c == digit || c == upper[v]);
    }
  }

  /** Keys survive being written and read, and canonical text is the only text
      that reads back to the key it is. */
  lemma HexRoundTrip(s: string)
    ensures IsCanonical(s) ==> FromHex(s) == Some(s)
    ensures FromHex(s).Some? && ToHex(FromHex(s).value) == s ==> IsCanonical(s)
  {
    if IsCanonical(s) {
      assert forall i :: 0 <= i < |s| ==> IsHexDigit(s[i]);
      assert FromHex(s).value == s;
    }
  }
}
