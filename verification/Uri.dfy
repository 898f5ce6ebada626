/** Reading and writing `nostr+nodecontrol://` addresses, and their percent codec,
    following sections 2.1 and 2.3 of RFC 3986.

    Text is held as its UTF-8 bytes, which is what both directions work on. */
module Uri {
  import opened Wrappers
  import opened Keys
  import opened Events

  type byte = x: int | 0 <= x < 256
  type Text = seq<byte>

  predicate IsAsciiString(s: string) {
    forall i :: 0 <= i < |s| ==> s[i] < 128 as char
  }

  function Bytes(s: string): (t: Text)
    requires IsAsciiString(s)
    ensures |t| == |s|
  {
    seq(|s|, i requires 0 <= i < |s| => s[i] as int)
  }

  predicate IsAscii(t: Text) {
    forall i :: 0 <= i < |t| ==> t[i] < 128
  }

  function Chars(t: Text): string
    requires IsAscii(t)
  {
    seq(|t|, i requires 0 <= i < |t| => t[i] as char)
  }

  const PERCENT: byte := 0x25
  const PLUS: byte := 0x2B
  const AMPERSAND: byte := 0x26
  const EQUALS: byte := 0x3D
  const QUESTION: byte := 0x3F

  // ---------------------------------------------------------------------
  // The percent codec
  // ---------------------------------------------------------------------

  /** Appending the character with this code point: one byte, or two from
      U+0080 on. */
  function Push(v: byte): Text {
    if v < 128 then [v] else [0xC0 + v / 64, 0x80 + v % 64]
  }

  function DigitValue(b: byte): Option<nat> {
    if 0x30 <= b <= 0x39 then Some(b - 0x30)
    else if 0x41 <= b <= 0x46 then Some(b - 0x41 + 10)
    else if 0x61 <= b <= 0x66 then Some(b - 0x61 + 10)
    else None
  }

  /** Reading two characters as a number in base sixteen: a leading plus sign is
      a sign. */
  function ReadHex(a: byte, b: byte): (r: Option<byte>) {
    if a == PLUS then
      match DigitValue(b)
      case None => None
      case Some(v) => Some(v)
    else
      match (DigitValue(a), DigitValue(b))
      case (Some(hi), Some(lo)) => assert hi < 16 && lo < 16; Some(16 * hi + lo)
      case _ => None
  }

  /** A byte that continues a character; text cannot be cut in front of one. */
  predicate Continues(b: byte) {
    0x80 <= b < 0xC0
  }

  predicate Cuts(t: Text, at: nat) {
    at < |t| && Continues(t[at])
  }

  /** `None` is the abort of cutting text inside a character. */
  function Decode(t: Text): Option<Text> {
    if t == [] then Some([])
    else if t[0] == PERCENT && |t| > 2 then
      if Cuts(t, 1) || Cuts(t, 3) then None
      else if ReadHex(t[1], t[2]).Some? then Prepend(Push(ReadHex(t[1], t[2]).value), Decode(t[3..]))
      else Prepend(Push(t[0]), Decode(t[1..]))
    else Prepend(Push(t[0]), Decode(t[1..]))
  }

  function Prepend(t: Text, rest: Option<Text>): Option<Text> {
    match rest
    case None => None
    case Some(r) => Some(t + r)
  }

  lemma PrependTwice(a: Text, b: Text, rest: Option<Text>)
    ensures Prepend(a, Prepend(b, rest)) == Prepend(a + b, rest)
  {
    if rest.Some? {
      assert a + (b + rest.value) == a + b + rest.value;
    }
  }

  method PercentDecode(t: Text) returns (r: Option<Text>)
    ensures r == Decode(t)
  {
    var out: Text := [];
    var i := 0;
    assert t[i..] == t;
    assert Decode(t).Some? ==> out + Decode(t).value == Decode(t).value;
    while i < |t|
      invariant 0 <= i <= |t|
      invariant Decode(t) == Prepend(out, Decode(t[i..]))
    {
      ghost var was, rest := out, t[i..];
      if t[i] == PERCENT && i + 2 < |t| {
        assert rest[1] == t[i + 1] && rest[2] == t[i + 2];
        assert i + 3 < |t| ==> rest[3] == t[i + 3];
        if Continues(t[i + 1]) || (i + 3 < |t| && Continues(t[i + 3])) {
          return None;
        }
        var v := ReadHex(t[i + 1], t[i + 2]);
        if v.Some? {
          out := out + Push(v.value);
          i := i + 3;
          assert rest[3..] == t[i..];
          PrependTwice(was, Push(v.value), Decode(t[i..]));
          continue;
        }
      }
      out := out + Push(t[i]);
      PrependTwice(was, Push(t[i]), Decode(t[i + 1..]));
      i := i + 1;
      assert rest[1..] == t[i..];
    }
    assert t[i..] == [];
    r := Some(out);
    assert Decode(t) == Prepend(out, Some([])) && out + [] == out;
  }

  predicate Unreserved(b: byte) {
    0x41 <= b <= 0x5A || 0x61 <= b <= 0x7A || 0x30 <= b <= 0x39 || b == 0x2D || b == 0x5F || b == 0x2E || b == 0x7E
  }

  function UpperDigit(v: nat): byte
    requires v < 16
  {
    if v < 10 then 0x30 + v else 0x41 + v - 10
  }

  function EncodeByte(b: byte): Text {
    if Unreserved(b) then [b] else [PERCENT, UpperDigit(b / 16), UpperDigit(b % 16)]
  }

  predicate IsUpperDigit(b: byte) {
    0x30 <= b <= 0x39 || 0x41 <= b <= 0x46
  }

  /** The normal form of section 2.1: a percent sign and two upper-case digits
      that read back as the byte. */
  lemma EncodedByteIsNormal(b: byte)
    requires !Unreserved(b)
    ensures var e := EncodeByte(b);
            && |e| == 3 && e[0] == PERCENT
            && IsUpperDigit(e[1]) && IsUpperDigit(e[2]) && ReadHex(e[1], e[2]) == Some(b)
  {
  }

  function Encode(t: Text): Text {
    if t == [] then [] else EncodeByte(t[0]) + Encode(t[1..])
  }

  /** What the decoder makes of any text's own bytes. */
  function Respelled(t: Text): Text {
    if t == [] then [] else Push(t[0]) + Respelled(t[1..])
  }

  lemma DecodeEncodedByte(b: byte, rest: Text)
    requires rest == [] || !Continues(rest[0])
    ensures Decode(EncodeByte(b) + rest) == Prepend(Push(b), Decode(rest))
  {
    var t := EncodeByte(b) + rest;
    if Unreserved(b) {
      assert t[1..] == rest;
    } else {
      assert t[3..] == rest;
      assert |t| > 3 ==> t[3] == rest[0];
      EncodedByteIsNormal(b);
    }
  }

  /** Only unreserved characters and the percent sign appear in encoded text. */
  lemma {:induction false} EncodedAlphabet(t: Text)
    ensures forall i :: 0 <= i < |Encode(t)| ==> Unreserved(Encode(t)[i]) || Encode(t)[i] == PERCENT
  {
    if t != [] {
      EncodedAlphabet(t[1..]);
    }
  }

  lemma {:induction false} DecodeUndoesEncode(t: Text)
    ensures Decode(Encode(t)) == Some(Respelled(t))
  {
    if t != [] {
      DecodeUndoesEncode(t[1..]);
      EncodedAlphabet(t[1..]);
      DecodeEncodedByte(t[0], Encode(t[1..]));
    }
  }

  lemma {:induction false} RespelledGrows(t: Text)
    ensures |t| <= |Respelled(t)|
    ensures IsAscii(t) ==> Respelled(t) == t
    ensures !IsAscii(t) ==> |t| < |Respelled(t)|
  {
    if t != [] {
      RespelledGrows(t[1..]);
      assert t == [t[0]] + t[1..];
    }
  }

  /** Decoding recovers exactly the ASCII texts. */
  lemma CodecRoundTripIff(t: Text)
    ensures Decode(Encode(t)) == Some(t) <==> IsAscii(t)
  {
    DecodeUndoesEncode(t);
    RespelledGrows(t);
  }

  /** A percent sign with two bytes behind it that begin or end inside a
      character. */
  ghost predicate CutAt(t: Text, i: nat) {
    i + 2 < |t| && t[i] == PERCENT && (Cuts(t, i + 1) || Cuts(t, i + 3))
  }

  lemma CutLater(t: Text, k: nat)
    requires k <= |t|
    ensures forall i: nat :: CutAt(t[k..], i) ==> CutAt(t, i + k)
    ensures forall i: nat :: k <= i && CutAt(t, i) ==> CutAt(t[k..], i - k)
  {
    var rest := t[k..];
    forall i: nat | k <= i && CutAt(t, i) ensures CutAt(rest, i - k) {
      assert rest[i - k] == t[i];
    }
  }

  /** Exactly when decoding aborts: every percent sign is looked at, since none
      can be part of an escape that is skipped. */
  lemma {:induction false} DecodeAbortsIff(t: Text)
    ensures Decode(t).None? <==> exists i: nat :: CutAt(t, i)
  {
    if t != [] && !CutAt(t, 0) {
      var escape := t[0] == PERCENT && |t| > 2 && ReadHex(t[1], t[2]).Some?;
      var k := if escape then 3 else 1;
      DecodeAbortsIff(t[k..]);
      CutLater(t, k);
      forall i: nat | CutAt(t, i) ensures k <= i {
        assert escape ==> t[1] != PERCENT && t[2] != PERCENT;
      }
      if i: nat :| CutAt(t[k..], i) {
        assert CutAt(t, i + k);
      }
    }
  }

  /** Text with no multi-byte character in it is never cut. */
  lemma AsciiDecodes(t: Text)
    requires IsAscii(t)
    ensures Decode(t).Some?
  {
    DecodeAbortsIff(t);
  }

  // ---------------------------------------------------------------------
  // What the codec does, byte by byte
  // ---------------------------------------------------------------------

  function Concat(pieces: seq<Text>): Text {
    if pieces == [] then [] else pieces[0] + Concat(pieces[1..])
  }

  lemma ConcatCons(p: Text, pieces: seq<Text>)
    ensures Concat([p] + pieces) == p + Concat(pieces)
  {
    assert ([p] + pieces)[1..] == pieces;
  }

  /** Section 3 of RFC 3629: a code point below U+0100 takes one byte of seven
      bits, or two of five and six. */
  lemma PushIsUtf8(v: byte)
    ensures var p := Push(v);
            if v < 0x80 then p == [v]
            else |p| == 2 && p[0] / 32 == 6 && p[1] / 64 == 2 && 64 * (p[0] % 32) + p[1] % 64 == v
  {
  }

  /** The byte is the digit for this number, in either case. */
  ghost predicate Spells(b: byte, v: int) {
    || (0 <= v < 10 && b == '0' as int + v)
    || (10 <= v < 16 && (b == 'a' as int + v - 10 || b == 'A' as int + v - 10))
  }

  lemma DigitIff(b: byte, v: nat)
    ensures DigitValue(b) == Some(v) <==> Spells(b, v)
  {
  }

  /** A percent sign and two digits, or a plus sign and one digit, behind it. */
  ghost predicate EscapeOf(t: Text, i: int, v: byte) {
    && 0 <= i && i + 2 < |t| && t[i] == PERCENT
    && (|| (Spells(t[i + 1], v / 16) && Spells(t[i + 2], v % 16))
        || (t[i + 1] == PLUS && Spells(t[i + 2], v)))
  }

  lemma PairIff(a: byte, b: byte, v: byte)
    requires a != PLUS
    ensures ReadHex(a, b) == Some(v) <==> DigitValue(a) == Some(v / 16) && DigitValue(b) == Some(v % 16)
  {
  }

  lemma EscapeIff(t: Text, v: byte)
    requires |t| > 2 && t[0] == PERCENT
    ensures ReadHex(t[1], t[2]) == Some(v) <==> EscapeOf(t, 0, v)
  {
    if t[1] == PLUS {
      DigitIff(t[2], v);
    } else {
      PairIff(t[1], t[2], v);
      DigitIff(t[1], v / 16);
      DigitIff(t[2], v % 16);
    }
  }

  ghost predicate IsEscape(t: Text, i: int) {
    exists v :: EscapeOf(t, i, v)
  }

  /** What the byte at `i` contributes: an escape its character, the two bytes it
      takes in nothing, and any other byte the character of that number. */
  ghost predicate Piece(t: Text, i: nat, p: Text)
    requires i < |t|
  {
    if IsEscape(t, i) then exists v :: EscapeOf(t, i, v) && p == Push(v)
    else if IsEscape(t, i - 1) || IsEscape(t, i - 2) then p == []
    else p == Push(t[i])
  }

  lemma EscapeShifts(t: Text, k: nat, i: int, rest: Text, j: int)
    requires k <= i && k <= |t| && rest == t[k..] && j == i - k
    ensures IsEscape(t, i) <==> IsEscape(rest, j)
    ensures forall v :: EscapeOf(t, i, v) <==> EscapeOf(rest, j, v)
  {
    if i + 2 < |t| {
      assert rest[j] == t[i] && rest[j + 1] == t[i + 1] && rest[j + 2] == t[i + 2];
    }
    assert forall v :: EscapeOf(t, i, v) <==> EscapeOf(rest, j, v);
    if v: byte :| EscapeOf(t, i, v) {
      assert EscapeOf(rest, j, v);
    }
    if v: byte :| EscapeOf(rest, j, v) {
      assert EscapeOf(t, i, v);
    }
  }

  /** Behind a whole escape or a byte that starts none, everything is as in the
      rest of the text alone. */
  lemma PieceShifts(t: Text, k: nat, i: nat, p: Text)
    requires k <= i < |t| && Piece(t[k..], i - k, p)
    requires forall j :: 0 <= j < k && IsEscape(t, j) ==> j + 3 <= k
    ensures Piece(t, i, p)
  {
    EscapeShifts(t, k, i, t[k..], i - k);
    if k <= i - 1 {
      EscapeShifts(t, k, i - 1, t[k..], i - k - 1);
    }
    if k <= i - 2 {
      EscapeShifts(t, k, i - 2, t[k..], i - k - 2);
    }
  }

  lemma NoEscapeInside(t: Text, i: int)
    requires 0 <= i < |t| && (t[i] != PERCENT || i + 2 >= |t|)
    ensures !IsEscape(t, i)
  {
  }

  ghost predicate Pieces(t: Text, pieces: seq<Text>) {
    |pieces| == |t| && forall i :: 0 <= i < |t| ==> Piece(t, i, pieces[i])
  }

  lemma PiecesJoin(t: Text, front: seq<Text>, rest: seq<Text>)
    requires |front| <= |t| && Pieces(t[|front|..], rest)
    requires forall i :: 0 <= i < |front| ==> Piece(t, i, front[i])
    requires forall j :: 0 <= j < |front| && IsEscape(t, j) ==> j + 3 <= |front|
    ensures Pieces(t, front + rest)
  {
    var k, pieces := |front|, front + rest;
    forall i | 0 <= i < |t| ensures Piece(t, i, pieces[i]) {
      if i >= k {
        assert Piece(t[k..], i - k, rest[i - k]);
        PieceShifts(t, k, i, pieces[i]);
      }
    }
  }

  /** What decoding gives on every text that does not abort, said of each byte by
      itself. */
  lemma {:induction false} DecodesBytewise(t: Text) returns (pieces: seq<Text>)
    requires Decode(t).Some?
    ensures Pieces(t, pieces) && Decode(t).value == Concat(pieces)
  {
    if t == [] {
      pieces := [];
    } else if t[0] == PERCENT && |t| > 2 && ReadHex(t[1], t[2]).Some? {
      var v := ReadHex(t[1], t[2]).value;
      var rest := DecodesBytewise(t[3..]);
      EscapeIsWhole(t, v);
      PiecesJoin(t, [Push(v), [], []], rest);
      ConcatEscape(Push(v), rest);
      pieces := [Push(v), [], []] + rest;
    } else {
      var rest := DecodesBytewise(t[1..]);
      NoEscapeAtFront(t);
      PiecesJoin(t, [Push(t[0])], rest);
      ConcatCons(Push(t[0]), rest);
      pieces := [Push(t[0])] + rest;
    }
  }

  lemma ConcatEscape(p: Text, pieces: seq<Text>)
    ensures Concat([p, [], []] + pieces) == p + Concat(pieces)
  {
    ConcatCons([], pieces);
    ConcatCons([], [[]] + pieces);
    ConcatCons(p, [[]] + ([[]] + pieces));
    assert [p, [], []] + pieces == [p] + ([[]] + ([[]] + pieces));
  }

  lemma EscapeIsWhole(t: Text, v: byte)
    requires |t| > 2 && t[0] == PERCENT && ReadHex(t[1], t[2]) == Some(v)
    ensures EscapeOf(t, 0, v) && !IsEscape(t, 1) && !IsEscape(t, 2) && !IsEscape(t, -1)
    ensures Piece(t, 0, Push(v)) && Piece(t, 1, []) && Piece(t, 2, [])
  {
    EscapeIff(t, v);
    assert t[1] != PERCENT && t[2] != PERCENT;
    NoEscapeInside(t, 1);
    NoEscapeInside(t, 2);
  }

  lemma NoEscapeAtFront(t: Text)
    requires t != [] && !(t[0] == PERCENT && |t| > 2 && ReadHex(t[1], t[2]).Some?)
    ensures !IsEscape(t, 0) && Piece(t, 0, Push(t[0]))
  {
    if v: byte :| EscapeOf(t, 0, v) {
      EscapeIff(t, v);
    }
    assert !IsEscape(t, -1) && !IsEscape(t, -2);
  }

  /** The characters section 2.3 of RFC 3986 leaves as they are. */
  ghost predicate LeftAsIs(b: byte) {
    var c := b as char;
    'A' <= c <= 'Z' || 'a' <= c <= 'z' || '0' <= c <= '9' || c in {'-', '.', '_', '~'}
  }

  /** What encoding makes of a byte. */
  ghost predicate Encoded(b: byte, p: Text) {
    if LeftAsIs(b) then p == [b]
    else
      && |p| == 3 && p[0] as char == '%'
      && p[1] as char == "0123456789ABCDEF"[b / 16] && p[2] as char == "0123456789ABCDEF"[b % 16]
  }

  lemma UpperDigitIs(v: nat)
    requires v < 16
    ensures UpperDigit(v) as char == "0123456789ABCDEF"[v]
  {
  }

  lemma {:induction false} EncodesBytewise(t: Text) returns (pieces: seq<Text>)
    ensures |pieces| == |t| && Encode(t) == Concat(pieces)
    ensures forall i :: 0 <= i < |t| ==> Encoded(t[i], pieces[i])
  {
    if t == [] {
      return [];
    }
    var rest := EncodesBytewise(t[1..]);
    pieces := [EncodeByte(t[0])] + rest;
    ConcatCons(EncodeByte(t[0]), rest);
    UpperDigitIs(t[0] / 16);
    UpperDigitIs(t[0] % 16);
  }

  // ---------------------------------------------------------------------
  // The URI
  // ---------------------------------------------------------------------

  datatype NodeControlUri = NodeControlUri(service: PublicKey, relays: seq<Text>)

  datatype UriError = WrongScheme(found: Text) | BadServiceKey | NoRelay | CarriesSecret

  /** `Aborted` is the abort of the percent decoder. */
  datatype Parsed = Uri(uri: NodeControlUri) | Invalid(error: UriError) | Aborted

  const PREFIX: Text := Bytes("nostr+nodecontrol://")
  const SEPARATOR: Text := Bytes("://")
  const RELAY: Text := Bytes("relay")
  const SECRET: Text := Bytes("secret")

  function KeyText(k: PublicKey): Text {
    Bytes(ToHex(k))
  }

  function ReadKey(t: Text): Option<PublicKey> {
    if IsAscii(t) then FromHex(Chars(t)) else None
  }

  /** Everything in front of the first `://`. */
  function BeforeSeparator(t: Text): Text {
    if t == [] || SEPARATOR <= t then [] else [t[0]] + BeforeSeparator(t[1..])
  }

  function Split(t: Text, separator: byte): (pieces: seq<Text>)
    ensures pieces != []
    decreases |t|
  {
    match SplitOnce(t, separator)
    case None => [t]
    case Some((before, after)) => SplitSmaller(t, separator); [before] + Split(after, separator)
  }

  lemma SplitSmaller(t: Text, separator: byte)
    ensures SplitOnce(t, separator).Some? ==> |SplitOnce(t, separator).value.1| < |t|
  {
  }

  datatype Relays = Relays(found: seq<Text>) | Refused(error: UriError) | Cut

  function KeyValue(pair: Text): (Text, Text) {
    SplitOnce(pair, EQUALS).GetOr((pair, []))
  }

  /** The relays of a query; parameters that are neither relay nor secret are
      passed over. */
  function ReadRelays(pairs: seq<Text>): Relays {
    if pairs == [] then Relays([])
    else
      var (key, value) := KeyValue(pairs[0]);
      if key == RELAY then
        match Decode(value)
        case None => Cut
        case Some(relay) =>
          match ReadRelays(pairs[1..])
          case Relays(found) => Relays([relay] + found)
          case other => other
      else if key == SECRET then Refused(CarriesSecret)
      else ReadRelays(pairs[1..])
  }

  function Parse(t: Text): Parsed {
    if !(PREFIX <= t) then Invalid(WrongScheme(BeforeSeparator(t)))
    else
      var rest := t[|PREFIX|..];
      var (key, query) := SplitOnce(rest, QUESTION).GetOr((rest, []));
      match ReadKey(key)
      case None => Invalid(BadServiceKey)
      case Some(service) =>
        match ReadRelays(Split(query, AMPERSAND))
        case Cut => Aborted
        case Refused(error) => Invalid(error)
        case Relays(found) =>
          if found == [] then Invalid(NoRelay) else Uri(NodeControlUri(service, found))
  }

  method ParseUri(t: Text) returns (r: Parsed)
    ensures r == Parse(t)
  {
    if !(PREFIX <= t) {
      return Invalid(WrongScheme(BeforeSeparator(t)));
    }
    var rest := t[|PREFIX|..];
    var (key, query) := SplitOnce(rest, QUESTION).GetOr((rest, []));
    var service := ReadKey(key);
    if service.None? {
      return Invalid(BadServiceKey);
    }
    var pairs := Split(query, AMPERSAND);
    var relays: seq<Text> := [];
    assert pairs[0..] == pairs;
    for i := 0 to |pairs|
      invariant ReadRelays(pairs) == After(relays, ReadRelays(pairs[i..]))
    {
      assert pairs[i..][1..] == pairs[i + 1..];
      if pairs[i] == [] {
        continue;
      }
      var (k, v) := KeyValue(pairs[i]);
      if k == RELAY {
        var relay := PercentDecode(v);
        if relay.None? {
          return Aborted;
        }
        AfterMore(relays, relay.value, ReadRelays(pairs[i + 1..]));
        relays := relays + [relay.value];
      } else if k == SECRET {
        return Invalid(CarriesSecret);
      }
    }
    assert pairs[|pairs|..] == [] && relays + [] == relays;
    if relays == [] {
      return Invalid(NoRelay);
    }
    r := Uri(NodeControlUri(service.value, relays));
  }

  lemma {:induction false} SecretStopsReading(pairs: seq<Text>, i: nat)
    requires i < |pairs| && KeyValue(pairs[i]).0 == SECRET
    ensures ReadRelays(pairs) == Refused(CarriesSecret) || ReadRelays(pairs) == Cut
  {
    assert |RELAY| != |SECRET|;
    if i > 0 {
      SecretStopsReading(pairs[1..], i - 1);
    }
  }

  /** A relay that cannot be decoded, with no secret before it. */
  ghost predicate CutPair(pairs: seq<Text>, i: nat) {
    i < |pairs| && KeyValue(pairs[i]).0 == RELAY && (exists j: nat :: CutAt(KeyValue(pairs[i]).1, j)) &&
    forall j :: 0 <= j < i ==> KeyValue(pairs[j]).0 != SECRET
  }

  lemma {:induction false} ReadingAbortsIff(pairs: seq<Text>)
    ensures ReadRelays(pairs) == Cut <==> exists i: nat :: CutPair(pairs, i)
  {
    if pairs != [] {
      var (key, value) := KeyValue(pairs[0]);
      assert |RELAY| != |SECRET|;
      DecodeAbortsIff(value);
      ReadingAbortsIff(pairs[1..]);
      if key == RELAY && Decode(value).None? {
        assert CutPair(pairs, 0);
      } else {
        if i: nat :| CutPair(pairs[1..], i) {
          assert key != SECRET ==> CutPair(pairs, i + 1);
        }
        if i: nat :| CutPair(pairs, i) {
          assert i > 0 && CutPair(pairs[1..], i - 1);
        }
      }
    }
  }

  /** The parameters of a URI that has the right scheme. */
  function ParametersOf(t: Text): seq<Text>
    requires PREFIX <= t
  {
    Split(AfterKey(t).1, AMPERSAND)
  }

  /** The service key of such a URI, and its query. */
  function AfterKey(t: Text): (Text, Text)
    requires PREFIX <= t
  {
    var rest := t[|PREFIX|..];
    SplitOnce(rest, QUESTION).GetOr((rest, []))
  }

  /** Exactly when parsing aborts instead of giving a URI or an error: scheme and
      key are in order, and a relay that comes before any secret has a percent
      sign with a multi-byte character cut two bytes behind it. */
  lemma ParseAbortsIff(t: Text)
    ensures Parse(t) == Aborted
       <==> (PREFIX <= t && ReadKey(AfterKey(t).0).Some? && exists i: nat :: CutPair(ParametersOf(t), i))
  {
    if PREFIX <= t {
      ReadingAbortsIff(ParametersOf(t));
    }
  }

  /** A percent sign, the letter a, and the two bytes of an accented e. */
  const CUT_RELAY: Text := [PERCENT, 0x61, 0xC3, 0xA9]

  /** Such a URI exists for every key; the same relay without its percent sign
      gives no abort. */
  lemma CutRelayAborts(k: PublicKey)
    ensures Parse(PREFIX + KeyText(k) + [QUESTION] + (RELAY + [EQUALS] + CUT_RELAY)) == Aborted
    ensures Decode(CUT_RELAY[1..]).Some?
  {
    var pair := RELAY + [EQUALS] + CUT_RELAY;
    var t := PREFIX + KeyText(k) + [QUESTION] + pair;
    KeyReads(k);
    assert t[|PREFIX|..] == KeyText(k) + [QUESTION] + pair;
    SplitOnceFinds(KeyText(k), QUESTION, pair);
    SplitOnceFinds(RELAY, EQUALS, CUT_RELAY);
    assert AMPERSAND !in RELAY && AMPERSAND !in CUT_RELAY;
    assert AMPERSAND !in pair;
    SplitOnceSound(pair, AMPERSAND);
    assert AfterKey(t) == (KeyText(k), pair);
    assert ParametersOf(t) == [pair];
    assert CutAt(CUT_RELAY, 0);
    assert CutPair([pair], 0);
    ParseAbortsIff(t);
    DecodeAbortsIff(CUT_RELAY[1..]);
  }

  // ---------------------------------------------------------------------
  // What parsing gives, parameter by parameter
  // ---------------------------------------------------------------------

  ghost function Join(pieces: seq<Text>, separator: byte): Text
    requires pieces != []
  {
    if |pieces| == 1 then pieces[0] else pieces[0] + [separator] + Join(pieces[1..], separator)
  }

  /** Splitting is undone by joining, and leaves no separator in a piece. */
  lemma {:induction false} SplitIsExact(t: Text, separator: byte)
    ensures Join(Split(t, separator), separator) == t
    ensures forall p :: p in Split(t, separator) ==> separator !in p
    decreases |t|
  {
    SplitOnceSound(t, separator);
    if SplitOnce(t, separator).Some? {
      var (before, after) := SplitOnce(t, separator).value;
      SplitSmaller(t, separator);
      SplitIsExact(after, separator);
      assert ([before] + Split(after, separator))[1..] == Split(after, separator);
    }
  }

  /** Everything before the first `://`, or all of a text that has none. */
  lemma {:induction false} SchemeIsExact(t: Text)
    ensures var found := BeforeSeparator(t);
            && found <= t
            && (found == t || SEPARATOR <= t[|found|..])
            && forall i :: 0 <= i < |found| ==> !(SEPARATOR <= t[i..])
  {
    if t != [] && !(SEPARATOR <= t) {
      SchemeIsExact(t[1..]);
      var rest := BeforeSeparator(t[1..]);
      assert t[1..][|rest|..] == t[|rest| + 1..];
      forall i | 0 <= i <= |rest| ensures !(SEPARATOR <= t[i..]) {
        if i == 0 {
          assert t[0..] == t;
        } else {
          assert t[1..][i - 1..] == t[i..];
        }
      }
    }
  }

  /** The key and the query are what is in front of and behind the first question
      mark; without one there is no query. */
  lemma KeyAndQuery(t: Text)
    requires PREFIX <= t
    ensures var (key, query) := AfterKey(t);
            && QUESTION !in key
            && (t == PREFIX + key + [QUESTION] + query || (t == PREFIX + key && query == []))
  {
    var rest := t[|PREFIX|..];
    assert t == PREFIX + rest;
    SplitOnceSound(rest, QUESTION);
    var (key, query) := AfterKey(t);
    assert PREFIX + (key + [QUESTION] + query) == PREFIX + key + [QUESTION] + query;
  }

  /** A parameter's name is what is in front of its first equals sign, and its value
      what is behind; without one it has no value. */
  lemma NameAndValue(pair: Text)
    ensures var (name, value) := KeyValue(pair);
            && EQUALS !in name
            && (pair == name + [EQUALS] + value || (pair == name && value == []))
  {
    SplitOnceSound(pair, EQUALS);
  }

  ghost predicate NamedAt(pairs: seq<Text>, i: nat, name: Text) {
    i < |pairs| && KeyValue(pairs[i]).0 == name
  }

  ghost predicate ReadsAt(pairs: seq<Text>, i: nat, name: Text, text: Text) {
    NamedAt(pairs, i, name) && Decode(KeyValue(pairs[i]).1) == Some(text)
  }

  /** `at` are the places of all the parameters of that name, in order, and
      `texts` what they decode to. */
  ghost predicate DecodedAt(pairs: seq<Text>, name: Text, at: seq<nat>, texts: seq<Text>) {
    && |at| == |texts|
    && (forall j, k :: 0 <= j < k < |at| ==> at[j] < at[k])
    && (forall k :: 0 <= k < |at| ==> ReadsAt(pairs, at[k], name, texts[k]))
    && (forall i: nat :: NamedAt(pairs, i, name) ==> i in at)
  }

  function Later(at: seq<nat>): seq<nat> {
    seq(|at|, k requires 0 <= k < |at| => at[k] + 1)
  }

  lemma LaterHas(at: seq<nat>, i: nat)
    requires i in at
    ensures i + 1 in Later(at)
  {
    var k :| 0 <= k < |at| && at[k] == i;
    assert Later(at)[k] == i + 1;
  }

  lemma NamedLater(pairs: seq<Text>, i: nat, name: Text)
    requires pairs != []
    ensures NamedAt(pairs[1..], i, name) <==> NamedAt(pairs, i + 1, name)
  {
  }

  lemma ReadsLater(pairs: seq<Text>, i: nat, name: Text, text: Text)
    requires pairs != [] && ReadsAt(pairs[1..], i, name, text)
    ensures ReadsAt(pairs, i + 1, name, text)
  {
    assert pairs[1..][i] == pairs[i + 1];
  }

  lemma OtherInFront(pairs: seq<Text>, name: Text, at: seq<nat>, texts: seq<Text>)
    requires pairs != [] && !NamedAt(pairs, 0, name) && DecodedAt(pairs[1..], name, at, texts)
    ensures DecodedAt(pairs, name, Later(at), texts)
  {
    forall i: nat | NamedAt(pairs, i, name) ensures i in Later(at) {
      NamedLater(pairs, i - 1, name);
      LaterHas(at, i - 1);
    }
    forall k | 0 <= k < |at| ensures ReadsAt(pairs, Later(at)[k], name, texts[k]) {
      ReadsLater(pairs, at[k], name, texts[k]);
    }
  }

  lemma OneInFront(pairs: seq<Text>, name: Text, at: seq<nat>, texts: seq<Text>, first: Text)
    requires ReadsAt(pairs, 0, name, first) && DecodedAt(pairs[1..], name, at, texts)
    ensures DecodedAt(pairs, name, [0] + Later(at), [first] + texts)
  {
    var places, all := [0] + Later(at), [first] + texts;
    forall i: nat | NamedAt(pairs, i, name) ensures i in places {
      if i > 0 {
        NamedLater(pairs, i - 1, name);
        LaterHas(at, i - 1);
      }
    }
    forall k | 0 <= k < |places| ensures ReadsAt(pairs, places[k], name, all[k]) {
      if k > 0 {
        assert places[k] == at[k - 1] + 1 && all[k] == texts[k - 1];
        ReadsLater(pairs, at[k - 1], name, texts[k - 1]);
      }
    }
  }

  /** Reading parameters, if it succeeds, gives every relay, decoded, in order, and
      there is no secret. */
  lemma {:induction false} RelaysInOrder(pairs: seq<Text>) returns (at: seq<nat>)
    requires ReadRelays(pairs).Relays?
    ensures DecodedAt(pairs, RELAY, at, ReadRelays(pairs).found)
    ensures forall i: nat :: !NamedAt(pairs, i, SECRET)
  {
    at := [];
    if pairs != [] {
      var rest := RelaysInOrder(pairs[1..]);
      forall i: nat ensures !NamedAt(pairs, i, SECRET) {
        if i > 0 {
          NamedLater(pairs, i - 1, SECRET);
        }
      }
      if KeyValue(pairs[0]).0 == RELAY {
        at := [0] + Later(rest);
        OneInFront(pairs, RELAY, rest, ReadRelays(pairs[1..]).found, Decode(KeyValue(pairs[0]).1).value);
      } else {
        at := Later(rest);
        OtherInFront(pairs, RELAY, rest, ReadRelays(pairs[1..]).found);
      }
    }
  }

  lemma {:induction false} RefusedForASecret(pairs: seq<Text>)
    requires ReadRelays(pairs).Refused?
    ensures ReadRelays(pairs).error == CarriesSecret
    ensures exists i: nat :: NamedAt(pairs, i, SECRET)
  {
    if KeyValue(pairs[0]).0 == SECRET {
      assert NamedAt(pairs, 0, SECRET);
    } else {
      RefusedForASecret(pairs[1..]);
      var i: nat :| NamedAt(pairs[1..], i, SECRET);
      NamedLater(pairs, i, SECRET);
    }
  }

  /** A query is refused for its secret exactly if it has one and no relay before
      the first is cut inside a character. */
  lemma RefusedIff(pairs: seq<Text>)
    ensures ReadRelays(pairs) == Refused(CarriesSecret)
       <==> (exists i: nat :: NamedAt(pairs, i, SECRET)) && forall j: nat :: !CutPair(pairs, j)
  {
    ReadingAbortsIff(pairs);
    if ReadRelays(pairs).Refused? {
      RefusedForASecret(pairs);
    }
    if i: nat :| NamedAt(pairs, i, SECRET) {
      SecretStopsReading(pairs, i);
    }
  }

  /** A key is read if it is sixty-four digits, in either case. */
  lemma KeyReadsIff(t: Text, k: PublicKey)
    ensures ReadKey(t) == Some(k) <==> |t| == 64 && forall i :: 0 <= i < 64 ==> SameDigit(t[i] as char, k[i])
  {
    if IsAscii(t) {
      ReadsIffSameDigits(Chars(t), k);
    } else if |t| == 64 && forall i :: 0 <= i < 64 ==> SameDigit(t[i] as char, k[i]) {
      forall i | 0 <= i < |t| ensures t[i] < 128 {
        DigitsAgree(t[i] as char, k[i]);
      }
    }
  }

  /** What parsing gives on every text: each error for its own reason, the abort,
      and otherwise the key and all the relays, decoded, in order. */
  lemma ParseIsExact(t: Text)
    ensures Parse(t) == Invalid(WrongScheme(BeforeSeparator(t))) <==> !(Bytes("nostr+nodecontrol://") <= t)
    ensures Bytes("nostr+nodecontrol://") <= t ==>
              var key, pairs := ReadKey(AfterKey(t).0), ParametersOf(t);
              var secret := exists i: nat :: NamedAt(pairs, i, Bytes("secret"));
              var relay := exists i: nat :: NamedAt(pairs, i, Bytes("relay"));
              var cut := exists i: nat :: CutPair(pairs, i);
              && (Parse(t) == Invalid(BadServiceKey) <==> key.None?)
              && (Parse(t) == Aborted <==> key.Some? && cut)
              && (Parse(t) == Invalid(CarriesSecret) <==> key.Some? && !cut && secret)
              && (Parse(t) == Invalid(NoRelay) <==> key.Some? && !cut && !secret && !relay)
              && (Parse(t).Uri? <==> key.Some? && !cut && !secret && relay)
              && (Parse(t).Uri? ==>
                    && Parse(t).uri.service == key.value
                    && exists at :: DecodedAt(pairs, Bytes("relay"), at, Parse(t).uri.relays))
  {
    if PREFIX <= t {
      var pairs := ParametersOf(t);
      ReadingAbortsIff(pairs);
      RefusedIff(pairs);
      match ReadRelays(pairs)
      case Cut =>
      case Refused(_) => RefusedForASecret(pairs);
      case Relays(found) =>
        var at := RelaysInOrder(pairs);
        if found == [] {
          assert at == [];
        } else {
          assert NamedAt(pairs, at[0], RELAY);
        }
    }
  }

  /** A URI with a secret anywhere among its parameters is never accepted. */
  lemma SecretIsNeverAccepted(t: Text, i: nat)
    requires PREFIX <= t && SplitOnce(t[|PREFIX|..], QUESTION).Some?
    requires var pairs := Split(SplitOnce(t[|PREFIX|..], QUESTION).value.1, AMPERSAND);
             i < |pairs| && KeyValue(pairs[i]).0 == SECRET
    ensures !Parse(t).Uri?
  {
    SecretStopsReading(Split(SplitOnce(t[|PREFIX|..], QUESTION).value.1, AMPERSAND), i);
  }

  /** Relays already found, in front of what the remaining pairs give. */
  ghost function After(relays: seq<Text>, rest: Relays): Relays {
    match rest
    case Relays(found) => Relays(relays + found)
    case other => other
  }

  lemma AfterMore(relays: seq<Text>, relay: Text, rest: Relays)
    ensures After(relays, After([relay], rest)) == After(relays + [relay], rest)
  {
  }

  function Pair(relay: Text): Text {
    RELAY + [EQUALS] + Encode(relay)
  }

  /** A question mark before the first parameter, an ampersand before the others. */
  function Query(relays: seq<Text>): Text {
    if relays == [] then []
    else
      var front, last := relays[..|relays| - 1], relays[|relays| - 1];
      Query(front) + [if front == [] then QUESTION else AMPERSAND] + Pair(last)
  }

  function Print(u: NodeControlUri): Text {
    PREFIX + KeyText(u.service) + Query(u.relays)
  }

  lemma QueryMore(relays: seq<Text>, i: nat)
    requires i < |relays|
    ensures Query(relays[..i + 1])
         == Query(relays[..i]) + ([if i == 0 then QUESTION else AMPERSAND] + Pair(relays[i]))
  {
    assert relays[..i + 1][..i] == relays[..i];
  }

  method PrintQuery(relays: seq<Text>) returns (t: Text)
    ensures t == Query(relays)
  {
    t := [];
    for i := 0 to |relays|
      invariant t == Query(relays[..i])
    {
      QueryMore(relays, i);
      t := t + ([if i == 0 then QUESTION else AMPERSAND] + Pair(relays[i]));
    }
    assert relays[..|relays|] == relays;
  }

  method PrintUri(u: NodeControlUri) returns (t: Text)
    ensures t == Print(u)
  {
    var query := PrintQuery(u.relays);
    t := PREFIX + KeyText(u.service) + query;
  }

  // ---------------------------------------------------------------------
  // Printing and parsing
  // ---------------------------------------------------------------------

  function Pairs(relays: seq<Text>): seq<Text> {
    seq(|relays|, i requires 0 <= i < |relays| => Pair(relays[i]))
  }

  lemma PairIsOnePiece(relay: Text)
    ensures AMPERSAND !in Pair(relay)
    ensures KeyValue(Pair(relay)) == (RELAY, Encode(relay))
  {
    EncodedAlphabet(relay);
    SplitOnceFinds(RELAY, EQUALS, Encode(relay));
  }

  lemma {:induction false} SplitLast(t: Text, piece: Text)
    requires AMPERSAND !in piece
    ensures Split(t + [AMPERSAND] + piece, AMPERSAND) == Split(t, AMPERSAND) + [piece]
    decreases |t|
  {
    SplitOnceSound(t, AMPERSAND);
    SplitOnceSound(piece, AMPERSAND);
    match SplitOnce(t, AMPERSAND)
    case None =>
      SplitOnceFinds(t, AMPERSAND, piece);
      assert SplitOnce(piece, AMPERSAND).None?;
      assert Split(piece, AMPERSAND) == [piece];
    case Some((before, after)) =>
      SplitLast(after, piece);
      SplitOnceFinds(before, AMPERSAND, after + [AMPERSAND] + piece);
      assert t + [AMPERSAND] + piece == before + [AMPERSAND] + (after + [AMPERSAND] + piece);
  }

  /** The query after its question mark. */
  function Parameters(relays: seq<Text>): Text
    requires relays != []
  {
    var front, last := relays[..|relays| - 1], relays[|relays| - 1];
    if front == [] then Pair(last) else Parameters(front) + [AMPERSAND] + Pair(last)
  }

  lemma {:induction false} QueryIsMarked(relays: seq<Text>)
    requires relays != []
    ensures Query(relays) == [QUESTION] + Parameters(relays)
  {
    var front := relays[..|relays| - 1];
    if front != [] {
      QueryIsMarked(front);
    }
  }

  lemma {:induction false} ParametersSplit(relays: seq<Text>)
    requires relays != []
    ensures Split(Parameters(relays), AMPERSAND) == Pairs(relays)
  {
    var front, last := relays[..|relays| - 1], relays[|relays| - 1];
    PairIsOnePiece(last);
    if front == [] {
      SplitOnceSound(Pair(last), AMPERSAND);
      assert Pairs(relays) == [Pair(last)];
    } else {
      ParametersSplit(front);
      SplitLast(Parameters(front), Pair(last));
      assert Pairs(relays) == Pairs(front) + [Pair(last)];
    }
  }

  function RespelledAll(relays: seq<Text>): seq<Text> {
    seq(|relays|, i requires 0 <= i < |relays| => Respelled(relays[i]))
  }

  lemma OnePairReads(relay: Text, pairs: seq<Text>)
    ensures ReadRelays([Pair(relay)] + pairs) == After([Respelled(relay)], ReadRelays(pairs))
  {
    PairIsOnePiece(relay);
    DecodeUndoesEncode(relay);
    assert ([Pair(relay)] + pairs)[1..] == pairs;
  }

  lemma {:induction false} PairsRead(relays: seq<Text>)
    ensures ReadRelays(Pairs(relays)) == Relays(RespelledAll(relays))
  {
    if relays != [] {
      PairsRead(relays[1..]);
      OnePairReads(relays[0], Pairs(relays[1..]));
      assert Pairs(relays) == [Pair(relays[0])] + Pairs(relays[1..]);
      assert RespelledAll(relays) == [Respelled(relays[0])] + RespelledAll(relays[1..]);
    }
  }

  lemma KeyReads(k: PublicKey)
    ensures ReadKey(KeyText(k)) == Some(k)
    ensures QUESTION !in KeyText(k)
  {
    HexRoundTrip(k);
    assert Chars(KeyText(k)) == k;
  }

  /** Parsing what was printed never aborts and never meets a secret; what comes
      back is the same key, with every relay respelled. */
  lemma ParsePrinted(u: NodeControlUri)
    ensures Parse(Print(u)) == if u.relays == [] then Invalid(NoRelay)
                               else Uri(NodeControlUri(u.service, RespelledAll(u.relays)))
  {
    var t, key := Print(u), KeyText(u.service);
    KeyReads(u.service);
    assert PREFIX <= t && t[|PREFIX|..] == key + Query(u.relays);
    if u.relays == [] {
      assert key + Query(u.relays) == key;
      SplitOnceSound(key, QUESTION);
      assert Split([], AMPERSAND) == [[]];
      assert ReadRelays([[]]) == Relays([]);
    } else {
      QueryIsMarked(u.relays);
      ParametersSplit(u.relays);
      var query := Parameters(u.relays);
      assert key + Query(u.relays) == key + [QUESTION] + query;
      SplitOnceFinds(key, QUESTION, query);
      PairsRead(u.relays);
      assert |RespelledAll(u.relays)| == |u.relays|;
    }
  }

  /** The round trip, exactly: a URI comes back as it was precisely if it has a
      relay and all its relays are ASCII. */
  lemma RoundTripIff(u: NodeControlUri)
    ensures Parse(Print(u)) == Uri(u) <==>
            u.relays != [] && forall i :: 0 <= i < |u.relays| ==> IsAscii(u.relays[i])
  {
    ParsePrinted(u);
    forall i | 0 <= i < |u.relays| ensures Respelled(u.relays[i]) == u.relays[i] <==> IsAscii(u.relays[i]) {
      RespelledGrows(u.relays[i]);
    }
    if u.relays != [] {
      var r := RespelledAll(u.relays);
      if forall i :: 0 <= i < |u.relays| ==> IsAscii(u.relays[i]) {
        assert r == u.relays;
      } else {
        var i :| 0 <= i < |u.relays| && !IsAscii(u.relays[i]);
        assert r[i] != u.relays[i];
      }
    }
  }
}
