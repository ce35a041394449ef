/**
 * Opaque pagination cursors: JSON bytes as URL-safe base64 without padding, and a decoder that also
 * takes the padded tokens of an older encoder. Base64 is that of RFC 4648, sections 3.2, 4 and 5.
 */
module Cursor {
  import opened Common
  import opened Sequences

  type Byte = b: nat | b < 256
  type Sextet = v: nat | v < 64

  datatype Alphabet = Standard | UrlSafe

  datatype Fault = NotAscii | IncorrectPadding | InvalidCursor

  // --- encoding ---

  /** Three bytes as four six-bit values. */
  function Group(x: Byte, y: Byte, z: Byte): (g: seq<Sextet>)
    ensures |g| == 4
  {
    [x / 4, x % 4 * 16 + y / 16, y % 16 * 4 + z / 64, z % 64]
  }

  /** The bytes cut into six-bit values, the last group filled up with zero bits and cut short. */
  function Sextets(bytes: seq<Byte>): seq<Sextet> {
    if |bytes| == 0 then []
    else if |bytes| == 1 then Group(bytes[0], 0, 0)[..2]
    else if |bytes| == 2 then Group(bytes[0], bytes[1], 0)[..3]
    else Group(bytes[0], bytes[1], bytes[2]) + Sextets(bytes[3..])
  }

  function Symbol(alphabet: Alphabet, v: Sextet): char {
    if v < 26 then 'A' + v as char
    else if v < 52 then 'a' + (v - 26) as char
    else if v < 62 then '0' + (v - 52) as char
    else if v == 62 then (if alphabet.Standard? then '+' else '-')
    else (if alphabet.Standard? then '/' else '_')
  }

  function Symbols(alphabet: Alphabet, values: seq<Sextet>): (text: string)
    ensures |text| == |values|
  {
    seq(|values|, i requires 0 <= i < |values| => Symbol(alphabet, values[i]))
  }

  /** How many '=' bring a text of this length to a multiple of four. */
  function Padding(length: nat): string {
    seq((4 - length % 4) % 4, _ => '=')
  }

  function Padded(alphabet: Alphabet, values: seq<Sextet>): string {
    Symbols(alphabet, values) + Padding(|values|)
  }

  function Encode(alphabet: Alphabet, bytes: seq<Byte>): string {
    Padded(alphabet, Sextets(bytes))
  }

  function StripPadding(text: string): string {
    if text != "" && text[|text| - 1] == '=' then StripPadding(text[..|text| - 1]) else text
  }

  function Token(bytes: seq<Byte>): string {
    StripPadding(Encode(UrlSafe, bytes))
  }

  // --- decoding ---

  function ToStandard(c: char): char {
    if c == '-' then '+' else if c == '_' then '/' else c
  }

  function ValueOf(c: char): Option<Sextet> {
    if 'A' <= c <= 'Z' then Some((c - 'A') as nat)
    else if 'a' <= c <= 'z' then Some((c - 'a') as nat + 26)
    else if '0' <= c <= '9' then Some((c - '0') as nat + 52)
    else if c == '+' then Some(62)
    else if c == '/' then Some(63)
    else None
  }

  /** What reading one character does: it ends the text, or it goes on, perhaps putting out a byte. */
  datatype Read = End | On(byte: Option<Byte>, position: nat, left: nat, pads: nat)

  /**
   * Characters outside the alphabet are skipped, and enough '=' end the text. `position` counts the
   * values read of the current group, `left` holds the bits of the last one not yet put out, `pads`
   * the '=' just read.
   */
  function ReadChar(c: char, position: nat, left: nat, pads: nat): (r: Read)
    requires position < 4 && left < Room(position)
    ensures r.On? ==> r.position < 4 && r.left < Room(r.position)
  {
    if c == '=' then
      if position >= 2 && position + pads + 1 >= 4 then End
      else On(None, position, left, if position >= 2 then pads + 1 else pads)
    else if ValueOf(c).None? then On(None, position, left, pads)
    else
      var v := ValueOf(c).value;
      if position == 0 then On(None, 1, v, 0)
      else if position == 1 then On(Some(left * 4 + v / 16), 2, v % 16, 0)
      else if position == 2 then On(Some(left * 16 + v / 4), 3, v % 4, 0)
      else On(Some(left * 64 + v), 0, 0, 0)
  }

  /** The lenient scan of the decoder; a text that ends inside a group is refused. */
  function Scan(text: string, position: nat, left: nat, pads: nat): Result<seq<Byte>, Fault>
    requires position < 4 && left < Room(position)
  {
    if text == "" then (if position == 0 then Ok([]) else Err(IncorrectPadding))
    else
      match ReadChar(ToStandard(text[0]), position, left, pads)
      case End => Ok([])
      case On(byte, next, bits, more) =>
        var later := Scan(text[1..], next, bits, more);
        if byte.Some? then Before(byte.value, later) else later
  }

  function Before(byte: Byte, later: Result<seq<Byte>, Fault>): Result<seq<Byte>, Fault> {
    if later.Ok? then Ok([byte] + later.value) else later
  }

  /** How many values the bits left over at a position can take. */
  function Room(position: nat): nat {
    if position == 0 then 1 else if position == 1 then 64 else if position == 2 then 16 else 4
  }

  predicate Ascii(text: string) {
    forall i :: 0 <= i < |text| ==> text[i] < 128 as char
  }

  function Decode(token: string): Result<seq<Byte>, Fault> {
    if !Ascii(token) then Err(NotAscii) else Scan(token + Padding(|token|), 0, 0, 0)
  }

  // --- cursors ---

  function EncodeCursor<T(!new)>(dumps: T -> seq<Byte>, payload: T): string {
    Token(dumps(payload))
  }

  /** `start` is the empty payload, from which a listing starts at the top. */
  function DecodeCursor<T(!new)>(loads: seq<Byte> -> Option<T>, start: T, cursor: Option<string>,
                          strict: bool): Result<T, Fault> {
    if cursor.None? || cursor.value == "" then Ok(start)
    else
      var payload := match Decode(cursor.value) case Ok(raw) => loads(raw) case Err(_) => None;
      if payload.Some? then Ok(payload.value) else if strict then Err(InvalidCursor) else Ok(start)
  }

  // --- round trips ---

  lemma SymbolValue(a: Alphabet, v: Sextet)
    ensures ValueOf(ToStandard(Symbol(a, v))) == Some(v) && ToStandard(Symbol(a, v)) != '='
    ensures Symbol(a, v) != '=' && Symbol(a, v) < 128 as char
  {
  }

  /** Reading the first symbol of a group puts nothing out. */
  lemma ScanFirst(a: Alphabet, v: Sextet, rest: string, out: seq<Byte>)
    requires Scan(rest, 1, v, 0) == Ok(out)
    ensures Scan([Symbol(a, v)] + rest, 0, 0, 0) == Ok(out)
  {
    ReadSymbol(a, v, 0, 0);
    assert ([Symbol(a, v)] + rest)[1..] == rest;
  }

  /** Reading any later symbol puts one byte out. */
  lemma ScanLater(a: Alphabet, v: Sextet, rest: string, position: nat, left: nat, read: Read, out: seq<Byte>)
    requires 1 <= position < 4 && left < Room(position)
    requires read == ReadChar(ToStandard(Symbol(a, v)), position, left, 0) && read.On? && read.byte.Some?
    requires Scan(rest, read.position, read.left, read.pads) == Ok(out)
    ensures Scan([Symbol(a, v)] + rest, position, left, 0) == Ok([read.byte.value] + out)
  {
    assert ([Symbol(a, v)] + rest)[1..] == rest;
  }

  lemma ReadSymbol(a: Alphabet, v: Sextet, position: nat, left: nat)
    requires position < 4 && left < Room(position)
    ensures ReadChar(ToStandard(Symbol(a, v)), position, left, 0)
         == if position == 0 then On(None, 1, v, 0)
            else if position == 1 then On(Some(left * 4 + v / 16), 2, v % 16, 0)
            else if position == 2 then On(Some(left * 16 + v / 4), 3, v % 4, 0)
            else On(Some(left * 64 + v), 0, 0, 0)
  {
    SymbolValue(a, v);
  }

  lemma Regroup(x: Byte, y: Byte, z: Byte)
    ensures x / 4 * 4 + (x % 4 * 16 + y / 16) / 16 == x && (x % 4 * 16 + y / 16) % 16 == y / 16
    ensures y / 16 * 16 + (y % 16 * 4 + z / 64) / 4 == y && (y % 16 * 4 + z / 64) % 4 == z / 64
    ensures z / 64 * 64 + z % 64 == z && (z % 64) % 64 == z % 64
  {
  }

  /** A full group of four symbols puts three bytes out and leaves the scan where it began. */
  lemma ScanGroup(a: Alphabet, v0: Sextet, v1: Sextet, v2: Sextet, v3: Sextet, rest: string, out: seq<Byte>)
    requires Scan(rest, 0, 0, 0) == Ok(out)
    ensures Scan([Symbol(a, v0)] + ([Symbol(a, v1)] + ([Symbol(a, v2)] + ([Symbol(a, v3)] + rest))), 0, 0, 0)
         == Ok([v0 * 4 + v1 / 16] + ([v1 % 16 * 16 + v2 / 4] + ([v2 % 4 * 64 + v3] + out)))
  {
    SecondHalf(a, v1 % 16, v2, v3, rest, out);
    FirstHalf(a, v0, v1, [Symbol(a, v2)] + ([Symbol(a, v3)] + rest),
              [v1 % 16 * 16 + v2 / 4] + ([v2 % 4 * 64 + v3] + out));
  }

  lemma FirstHalf(a: Alphabet, v0: Sextet, v1: Sextet, rest: string, out: seq<Byte>)
    requires Scan(rest, 2, v1 % 16, 0) == Ok(out)
    ensures Scan([Symbol(a, v0)] + ([Symbol(a, v1)] + rest), 0, 0, 0) == Ok([v0 * 4 + v1 / 16] + out)
  {
    ReadSymbol(a, v1, 1, v0);
    ScanLater(a, v1, rest, 1, v0, On(Some(v0 * 4 + v1 / 16), 2, v1 % 16, 0), out);
    ScanFirst(a, v0, [Symbol(a, v1)] + rest, [v0 * 4 + v1 / 16] + out);
  }

  lemma SecondHalf(a: Alphabet, left: nat, v2: Sextet, v3: Sextet, rest: string, out: seq<Byte>)
    requires left < 16 && Scan(rest, 0, 0, 0) == Ok(out)
    ensures Scan([Symbol(a, v2)] + ([Symbol(a, v3)] + rest), 2, left, 0)
         == Ok([left * 16 + v2 / 4] + ([v2 % 4 * 64 + v3] + out))
  {
    ReadSymbol(a, v3, 3, v2 % 4);
    ScanLater(a, v3, rest, 3, v2 % 4, On(Some(v2 % 4 * 64 + v3), 0, 0, 0), out);
    ReadSymbol(a, v2, 2, left);
    ScanLater(a, v2, [Symbol(a, v3)] + rest, 2, left, On(Some(left * 16 + v2 / 4), 3, v2 % 4, 0), [v2 % 4 * 64 + v3] + out);
  }

  /** A last group of one byte: two symbols and two '='. */
  lemma ScanOne(a: Alphabet, x: Byte)
    ensures Scan([Symbol(a, x / 4)] + ([Symbol(a, x % 4 * 16)] + "=="), 0, 0, 0) == Ok([x])
  {
    assert "=="[1..] == "=" && Scan("=", 2, 0, 1) == Ok([]);
    assert Scan("==", 2, 0, 0) == Ok([]);
    Regroup(x, 0, 0);
    FirstHalf(a, x / 4, x % 4 * 16, "==", []);
    assert [x] + [] == [x];
  }

  /** A last group of two bytes: three symbols and one '='. */
  lemma ScanTwo(a: Alphabet, x: Byte, y: Byte)
    ensures Scan([Symbol(a, x / 4)] + ([Symbol(a, x % 4 * 16 + y / 16)] + ([Symbol(a, y % 16 * 4)] + "=")), 0, 0, 0)
         == Ok([x] + [y])
  {
    Regroup(x, y, 0);
    ThreeSymbols(a, x / 4, x % 4 * 16 + y / 16, y % 16 * 4);
  }

  lemma ScanThird(a: Alphabet, left: nat, v: Sextet)
    requires left < 16
    ensures Scan([Symbol(a, v)] + "=", 2, left, 0) == Ok([left * 16 + v / 4])
  {
    assert Scan("=", 3, v % 4, 0) == Ok([]);
    ReadSymbol(a, v, 2, left);
    ScanLater(a, v, "=", 2, left, On(Some(left * 16 + v / 4), 3, v % 4, 0), []);
    assert [left * 16 + v / 4] + [] == [left * 16 + v / 4];
  }

  lemma ThreeSymbols(a: Alphabet, v0: Sextet, v1: Sextet, v2: Sextet)
    ensures Scan([Symbol(a, v0)] + ([Symbol(a, v1)] + ([Symbol(a, v2)] + "=")), 0, 0, 0)
         == Ok([v0 * 4 + v1 / 16] + [v1 % 16 * 16 + v2 / 4])
  {
    ScanThird(a, v1 % 16, v2);
    FirstHalf(a, v0, v1, [Symbol(a, v2)] + "=", [v1 % 16 * 16 + v2 / 4]);
  }

  lemma PaddedStep(a: Alphabet, head: seq<Sextet>, later: seq<Sextet>)
    requires |head| == 4
    ensures Padded(a, head + later) == Symbols(a, head) + Padded(a, later)
  {
    assert Symbols(a, head + later) == Symbols(a, head) + Symbols(a, later);
    PaddingStep(|later|);
  }

  lemma SextetsStep(bytes: seq<Byte>)
    requires |bytes| >= 3
    ensures Sextets(bytes)[..4] == Group(bytes[0], bytes[1], bytes[2]) && Sextets(bytes)[4..] == Sextets(bytes[3..])
  {
  }

  lemma PaddingCompletes(n: nat)
    ensures (n + |Padding(n)|) % 4 == 0
  {
  }

  lemma PaddingStep(n: nat)
    ensures Padding(4 + n) == Padding(n)
  {
    assert (4 + n) % 4 == n % 4;
  }

  /** A group of three bytes is read back, whatever symbols follow it. */
  lemma ScanStep(a: Alphabet, g: seq<Sextet>, later: seq<Sextet>, rest: seq<Byte>)
    requires |g| == 4 && Scan(Padded(a, later), 0, 0, 0) == Ok(rest)
    ensures Scan(Padded(a, g + later), 0, 0, 0) == Ok(Ungroup(g, rest))
  {
    PaddedStep(a, g, later);
    ScanHead(a, g, Padded(a, later), rest);
  }

  /** The three bytes of four six-bit values, before the rest. */
  function Ungroup(g: seq<Sextet>, rest: seq<Byte>): seq<Byte>
    requires |g| == 4
  {
    [g[0] as int * 4 + g[1] as int / 16] + ([g[1] as int % 16 * 16 + g[2] as int / 4] + ([g[2] as int % 4 * 64 + g[3] as int] + rest))
  }

  lemma ScanHead(a: Alphabet, g: seq<Sextet>, later: string, rest: seq<Byte>)
    requires |g| == 4 && Scan(later, 0, 0, 0) == Ok(rest)
    ensures Scan(Symbols(a, g) + later, 0, 0, 0) == Ok(Ungroup(g, rest))
  {
    FourSymbols(a, g, later);
    ScanGroup(a, g[0], g[1], g[2], g[3], later, rest);
  }

  lemma FourSymbols(a: Alphabet, g: seq<Sextet>, later: string)
    requires |g| == 4
    ensures Symbols(a, g) + later
         == [Symbol(a, g[0])] + ([Symbol(a, g[1])] + ([Symbol(a, g[2])] + ([Symbol(a, g[3])] + later)))
  {
  }

  lemma ShortForms(a: Alphabet, x: Byte, y: Byte)
    ensures Encode(a, [x]) == [Symbol(a, x / 4)] + ([Symbol(a, x % 4 * 16)] + "==")
    ensures Encode(a, [x, y])
         == [Symbol(a, x / 4)] + ([Symbol(a, x % 4 * 16 + y / 16)] + ([Symbol(a, y % 16 * 4)] + "="))
  {
  }

  lemma ScanShort(a: Alphabet, bytes: seq<Byte>)
    requires |bytes| < 3
    ensures Scan(Encode(a, bytes), 0, 0, 0) == Ok(bytes)
  {
    if |bytes| == 0 {
      assert Encode(a, bytes) == "";
    } else if |bytes| == 1 {
      assert bytes == [bytes[0]];
      ShortForms(a, bytes[0], 0);
      ScanOne(a, bytes[0]);
    } else {
      assert bytes == [bytes[0], bytes[1]];
      ShortForms(a, bytes[0], bytes[1]);
      ScanTwo(a, bytes[0], bytes[1]);
      assert bytes == [bytes[0]] + [bytes[1]];
    }
  }

  lemma ThreeAndRest(bytes: seq<Byte>)
    requires |bytes| >= 3
    ensures bytes == [bytes[0]] + ([bytes[1]] + ([bytes[2]] + bytes[3..]))
  {
  }

  lemma ScanLong(a: Alphabet, bytes: seq<Byte>)
    requires |bytes| >= 3 && Scan(Encode(a, bytes[3..]), 0, 0, 0) == Ok(bytes[3..])
    ensures Scan(Encode(a, bytes), 0, 0, 0) == Ok([bytes[0]] + ([bytes[1]] + ([bytes[2]] + bytes[3..])))
  {
    ScanThree(a, bytes[0], bytes[1], bytes[2], Sextets(bytes[3..]), bytes[3..]);
  }

  lemma {:induction false} ScanEncode(a: Alphabet, bytes: seq<Byte>)
    ensures Scan(Encode(a, bytes), 0, 0, 0) == Ok(bytes)
  {
    if |bytes| < 3 {
      ScanShort(a, bytes);
    } else {
      ScanEncode(a, bytes[3..]);
      ScanLong(a, bytes);
      ThreeAndRest(bytes);
    }
  }

  lemma Ungrouped(x: Byte, y: Byte, z: Byte, rest: seq<Byte>)
    ensures Ungroup(Group(x, y, z), rest) == [x] + ([y] + ([z] + rest))
  {
    var g := Group(x, y, z);
    Regroup(x, y, z);
    assert g[0] as int * 4 + g[1] as int / 16 == x;
    assert g[1] as int % 16 * 16 + g[2] as int / 4 == y;
    assert g[2] as int % 4 * 64 + g[3] as int == z;
  }

  lemma ScanThree(a: Alphabet, x: Byte, y: Byte, z: Byte, later: seq<Sextet>, rest: seq<Byte>)
    requires Scan(Padded(a, later), 0, 0, 0) == Ok(rest)
    ensures Scan(Padded(a, Group(x, y, z) + later), 0, 0, 0) == Ok([x] + ([y] + ([z] + rest)))
  {
    ScanStep(a, Group(x, y, z), later, rest);
    Ungrouped(x, y, z, rest);
  }

  lemma SymbolsArePlain(a: Alphabet, values: seq<Sextet>)
    ensures Ascii(Symbols(a, values)) && '=' !in Symbols(a, values)
  {
    var text := Symbols(a, values);
    forall i | 0 <= i < |text| ensures text[i] != '=' && text[i] < 128 as char {
      SymbolValue(a, values[i]);
    }
  }

  /** The padded text is a whole number of groups, ASCII, with every '=' at its end. */
  lemma PaddedShape(a: Alphabet, values: seq<Sextet>)
    ensures Ascii(Padded(a, values)) && Padding(|Padded(a, values)|) == ""
    ensures StripPadding(Padded(a, values)) == Symbols(a, values) && Ascii(Symbols(a, values))
  {
    SymbolsArePlain(a, values);
    PaddingCompletes(|values|);
    StripPads(Symbols(a, values), Padding(|values|));
  }

  lemma StripPads(text: string, pads: string)
    requires '=' !in text && forall i :: 0 <= i < |pads| ==> pads[i] == '='
    ensures StripPadding(text + pads) == text
  {
    assert pads == seq(|pads|, _ => '=');
    StripOff(text, |pads|);
  }

  lemma {:induction false} StripOff(text: string, n: nat)
    requires text != "" ==> text[|text| - 1] != '='
    ensures StripPadding(text + seq(n, _ => '=')) == text
  {
    var padded := text + seq(n, _ => '=');
    if n == 0 {
      assert padded == text;
    } else {
      assert padded[..|padded| - 1] == text + seq(n - 1, _ => '=');
      StripOff(text, n - 1);
    }
  }

  /**
   * Every byte sequence comes back from the stripped URL-safe token, from the padded URL-safe token,
   * and from the tokens of the standard alphabet with or without padding, '+' and '/' included.
   */
  lemma DecodeEveryForm(a: Alphabet, bytes: seq<Byte>)
    ensures Decode(StripPadding(Encode(a, bytes))) == Ok(bytes)
    ensures Decode(Encode(a, bytes)) == Ok(bytes)
  {
    PaddedShape(a, Sextets(bytes));
    ScanEncode(a, bytes);
    assert Encode(a, bytes) + "" == Encode(a, bytes);
  }

  /** A token needs no escaping in a URL. */
  lemma TokenIsUrlSafe(bytes: seq<Byte>, i: nat)
    requires i < |Token(bytes)|
    ensures var c := Token(bytes)[i];
            'A' <= c <= 'Z' || 'a' <= c <= 'z' || '0' <= c <= '9' || c == '-' || c == '_'
  {
    PaddedShape(UrlSafe, Sextets(bytes));
  }

  /** Different payload bytes have different tokens, and only no bytes have the empty one. */
  lemma TokenIsInjective(bytes: seq<Byte>, other: seq<Byte>)
    ensures Token(bytes) == Token(other) <==> bytes == other
    ensures Token(bytes) == "" <==> bytes == []
  {
    DecodeEveryForm(UrlSafe, bytes);
    DecodeEveryForm(UrlSafe, other);
    PaddedShape(UrlSafe, Sextets(bytes));
    assert |Token(bytes)| == |Sextets(bytes)|;
  }

  /** The cursor round trip, strict or not, for any JSON codec that is one; no JSON text is empty. */
  lemma CursorRoundTrip<T(!new)>(dumps: T -> seq<Byte>, loads: seq<Byte> -> Option<T>, start: T, payload: T,
                          strict: bool)
    requires loads(dumps(payload)) == Some(payload) && dumps(payload) != []
    ensures DecodeCursor(loads, start, Some(EncodeCursor(dumps, payload)), strict) == Ok(payload)
    ensures DecodeCursor(loads, start, Some(Encode(Standard, dumps(payload))), strict) == Ok(payload)
  {
    TokenIsInjective(dumps(payload), []);
    DecodeEveryForm(UrlSafe, dumps(payload));
    DecodeEveryForm(Standard, dumps(payload));
    PaddedShape(Standard, Sextets(dumps(payload)));
    assert Encode(Standard, dumps(payload)) != "" by {
      assert Sextets(dumps(payload)) != [];
    }
  }

  // --- when the two alphabets agree ---

  predicate HasHigh(values: seq<Sextet>) {
    exists i :: 0 <= i < |values| && values[i] >= 62
  }

  /** One of the bytes '>', '?', '~' and DEL stands third in its group. */
  predicate HasHighByte(bytes: seq<Byte>) {
    exists i :: 0 <= i < |bytes| && i % 3 == 2 && bytes[i] in {0x3E, 0x3F, 0x7E, 0x7F}
  }

  lemma HasHighStep(values: seq<Sextet>)
    requires |values| >= 4 && values[0] < 62 && values[1] < 62 && values[2] < 62
    ensures HasHigh(values) <==> values[3] >= 62 || HasHigh(values[4..])
  {
    if HasHigh(values[4..]) {
      var i :| 0 <= i < |values[4..]| && values[4..][i] >= 62;
      assert values[i + 4] >= 62;
    }
    if HasHigh(values) {
      var i :| 0 <= i < |values| && values[i] >= 62;
      assert i < 4 || values[4..][i - 4] == values[i];
    }
  }

  lemma HasHighByteStep(bytes: seq<Byte>)
    requires |bytes| >= 3
    ensures HasHighByte(bytes) <==> bytes[2] in {0x3E, 0x3F, 0x7E, 0x7F} || HasHighByte(bytes[3..])
  {
    if HasHighByte(bytes[3..]) {
      var i :| 0 <= i < |bytes[3..]| && i % 3 == 2 && bytes[3..][i] in {0x3E, 0x3F, 0x7E, 0x7F};
      assert bytes[i + 3] == bytes[3..][i] && (i + 3) % 3 == 2;
    }
    if HasHighByte(bytes) {
      var i :| 0 <= i < |bytes| && i % 3 == 2 && bytes[i] in {0x3E, 0x3F, 0x7E, 0x7F};
      assert i < 3 || (bytes[3..][i - 3] == bytes[i] && (i - 3) % 3 == 2);
    }
  }

  lemma {:induction false} HighSextets(bytes: seq<Byte>)
    requires forall i :: 0 <= i < |bytes| ==> bytes[i] < 128
    ensures HasHigh(Sextets(bytes)) <==> HasHighByte(bytes)
  {
    if |bytes| >= 3 {
      HighSextets(bytes[3..]);
      HasHighByteStep(bytes);
      SextetsStep(bytes);
      var head := Sextets(bytes)[..4];
      assert forall i :: 0 <= i < 4 ==> Sextets(bytes)[i] == head[i];
      HasHighStep(Sextets(bytes));
      assert bytes[2] % 64 >= 62 <==> bytes[2] in {0x3E, 0x3F, 0x7E, 0x7F};
    }
  }

  /** The two alphabets give one character stream exactly when no group has the value 62 or 63. */
  lemma SymbolsAgree(values: seq<Sextet>)
    ensures Symbols(Standard, values) == Symbols(UrlSafe, values) <==> !HasHigh(values)
  {
    forall i | 0 <= i < |values| ensures Symbol(Standard, values[i]) == Symbol(UrlSafe, values[i]) <==> values[i] < 62 {
    }
    if HasHigh(values) {
      var i :| 0 <= i < |values| && values[i] >= 62;
      assert Symbols(Standard, values)[i] != Symbols(UrlSafe, values)[i];
    }
  }

  /**
   * For an ASCII payload the standard and the URL-safe encoding are the same text exactly when none
   * of '>', '?', '~', DEL stands at an offset of 2 modulo 3. ASCII alone is not enough.
   */
  lemma AsciiStreamsCoincide(bytes: seq<Byte>)
    requires forall i :: 0 <= i < |bytes| ==> bytes[i] < 128
    ensures Encode(Standard, bytes) == Encode(UrlSafe, bytes) <==> !HasHighByte(bytes)
    ensures StripPadding(Encode(Standard, bytes)) == Token(bytes) <==> !HasHighByte(bytes)
  {
    HighSextets(bytes);
    SymbolsAgree(Sextets(bytes));
    PaddedShape(Standard, Sextets(bytes));
    PaddedShape(UrlSafe, Sextets(bytes));
    var n := |Sextets(bytes)|;
    assert Encode(Standard, bytes)[..n] == Symbols(Standard, Sextets(bytes));
    assert Encode(UrlSafe, bytes)[..n] == Symbols(UrlSafe, Sextets(bytes));
  }

  /** The JSON text `{"?":0}` is ASCII, and its two encodings differ. */
  lemma AsciiIsNotEnough()
    ensures var bytes: seq<Byte> := [0x7B, 0x22, 0x3F, 0x22, 0x3A, 0x30, 0x7D];
            StripPadding(Encode(Standard, bytes)) != Token(bytes)
  {
    var bytes: seq<Byte> := [0x7B, 0x22, 0x3F, 0x22, 0x3A, 0x30, 0x7D];
    AsciiStreamsCoincide(bytes);
    assert bytes[2] == 0x3F && 2 % 3 == 2;
  }

  // --- malformed tokens ---

  /** A text of symbols alone: what it decodes to is settled by its length. */
  predicate SymbolsOnly(text: string) {
    forall i :: 0 <= i < |text| ==> text[i] != '=' && ValueOf(ToStandard(text[i])).Some?
  }

  /** What is left once the symbols are read: the padding, which settles a broken group and no other. */
  lemma ScanPads(pads: string, position: nat, left: nat)
    requires position < 4 && left < Room(position) && pads == Padding(position)
    ensures Scan(pads, position, left, 0).Ok? <==> position != 1
  {
    if position == 1 {
      assert pads == "===" && pads[1..] == "==" && "=="[1..] == "=" && "="[1..] == "";
      assert Scan("=", 1, left, 0).Err?;
      assert Scan("==", 1, left, 0) == Scan("=", 1, left, 0);
      assert Scan(pads, 1, left, 0) == Scan("==", 1, left, 0);
    } else if position == 2 {
      assert pads == "==" && pads[1..] == "=";
    }
  }

  /** How reading one symbol turns on reading the rest. */
  lemma ScanValue(text: string, position: nat, left: nat) returns (next: nat, bits: nat)
    requires text != "" && text[0] != '=' && ValueOf(ToStandard(text[0])).Some? && position < 4 && left < Room(position)
    ensures next == (position + 1) % 4 && bits < Room(next)
    ensures Scan(text, position, left, 0).Ok? <==> Scan(text[1..], next, bits, 0).Ok?
  {
    var read := ReadChar(ToStandard(text[0]), position, left, 0);
    next, bits := read.position, read.left;
  }

  lemma PaddingShifts(position: nat, n: nat)
    requires position < 4 && n > 0
    ensures Padding(position + n) == Padding((position + 1) % 4 + (n - 1))
    ensures (position + n) % 4 == ((position + 1) % 4 + (n - 1)) % 4
  {
  }

  /** The first `n` characters are symbols and the rest is the padding they call for at `position`. */
  predicate SymbolsThenPads(text: string, n: nat, position: nat) {
    && n <= |text| && SymbolsOnly(text[..n])
    && text[n..] == Padding(position + n)
  }

  lemma SymbolsThenPadsTail(text: string, n: nat, position: nat)
    requires SymbolsThenPads(text, n, position) && n > 0 && position < 4
    ensures text[0] != '=' && ValueOf(ToStandard(text[0])).Some?
    ensures SymbolsThenPads(text[1..], n - 1, (position + 1) % 4)
  {
    assert text[..n][0] == text[0] && text[1..][..n - 1] == text[..n][1..] && text[1..][n - 1..] == text[n..];
    PaddingShifts(position, n);
  }

  lemma {:induction false} ScanSymbols(text: string, n: nat, position: nat, left: nat)
    requires SymbolsThenPads(text, n, position) && position < 4 && left < Room(position)
    ensures Scan(text, position, left, 0).Ok? <==> (position + n) % 4 != 1
    decreases n
  {
    if n == 0 {
      assert text[0..] == text;
      ScanPads(text, position, left);
    } else {
      SymbolsThenPadsTail(text, n, position);
      PaddingShifts(position, n);
      var next, bits := ScanValue(text, position, left);
      ScanSymbols(text[1..], n - 1, next, bits);
    }
  }

  /** A token of symbols alone is refused exactly when one symbol is left over. */
  lemma RefusedByLength(token: string)
    requires SymbolsOnly(token)
    ensures Decode(token).Err? <==> |token| % 4 == 1
  {
    forall i | 0 <= i < |token| ensures token[i] < 128 as char {
      assert ValueOf(ToStandard(token[i])).Some?;
    }
    var text := token + Padding(|token|);
    assert text[..|token|] == token && text[|token|..] == Padding(|token|);
    ScanSymbols(text, |token|, 0, 0);
  }
}
