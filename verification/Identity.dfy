/** Session identifiers and the file names derived from them (src/identity.rs, src/registry.rs). */
module Identity {
  import opened Bytes

  const ID_BYTES := 16
  type SessionId = s: seq<Byte> | |s| == ID_BYTES witness seq(ID_BYTES, i => 0)

  const HEX := "0123456789abcdef"

  // ---------------------------------------------------------------- the specification

  function DecodeNibble(c: char): (n: Option<Byte>)
    ensures n.Some? ==> n.value < 16 && HEX[n.value] == c
  {
    if '0' <= c <= '9' then Some(c as int - '0' as int)
    else if 'a' <= c <= 'f' then Some(c as int - 'a' as int + 10)
    else None
  }

  function HexByte(b: Byte): (s: string)
    ensures |s| == 2
  {
    [HEX[b / 16], HEX[b % 16]]
  }

  function UnhexByte(high: char, low: char): Option<Byte> {
    match (DecodeNibble(high), DecodeNibble(low))
    case (Some(h), Some(l)) => Some(h * 16 + l)
    case _ => None
  }

  function Hex(bytes: seq<Byte>): (s: string)
    ensures |s| == 2 * |bytes|
  {
    if bytes == [] then "" else HexByte(bytes[0]) + Hex(bytes[1..])
  }

  function Unhex(s: string): (r: Option<seq<Byte>>)
    requires |s| % 2 == 0
    ensures r.Some? ==> |r.value| == |s| / 2
  {
    if s == "" then Some([]) else
    match (UnhexByte(s[0], s[1]), Unhex(s[2..]))
    case (Some(first), Some(rest)) => Some([first] + rest)
    case _ => None
  }

  function ParseId(s: string): (r: Option<SessionId>) {
    if |s| != 2 * ID_BYTES then None else
    match Unhex(s) case Some(bytes) => Some(bytes) case None => None
  }

  lemma NibbleRoundTrip(n: Byte)
    requires n < 16
    ensures DecodeNibble(HEX[n]) == Some(n)
  {
  }

  lemma ByteRoundTrip(b: Byte)
    ensures UnhexByte(HexByte(b)[0], HexByte(b)[1]) == Some(b)
  {
    NibbleRoundTrip(b / 16);
    NibbleRoundTrip(b % 16);
  }

  lemma ByteCanonical(high: char, low: char)
    requires UnhexByte(high, low).Some?
    ensures HexByte(UnhexByte(high, low).value) == [high, low]
  {
    hide DecodeNibble;
    var h, l := DecodeNibble(high).value, DecodeNibble(low).value;
    assert (h * 16 + l) / 16 == h && (h * 16 + l) % 16 == l;
  }

  lemma {:induction false} UnhexHex(bytes: seq<Byte>)
    ensures Unhex(Hex(bytes)) == Some(bytes)
  {
    hide HexByte, UnhexByte;
    if bytes == [] {
    } else {
      ByteRoundTrip(bytes[0]);
      var s := Hex(bytes);
      assert s[0] == HexByte(bytes[0])[0] && s[1] == HexByte(bytes[0])[1];
      assert s[2..] == Hex(bytes[1..]);
      UnhexHex(bytes[1..]);
      assert [bytes[0]] + bytes[1..] == bytes;
    }
  }

  lemma {:induction false} HexUnhex(s: string)
    requires |s| % 2 == 0 && Unhex(s).Some?
    ensures Hex(Unhex(s).value) == s
  {
    hide HexByte, UnhexByte;
    if s == "" {
    } else {
      HexUnhex(s[2..]);
      ByteCanonical(s[0], s[1]);
      var bytes := Unhex(s).value;
      assert bytes[1..] == Unhex(s[2..]).value;
      assert s == [s[0], s[1]] + s[2..];
    }
  }

  /** Parsing and displaying are inverse bijections between IDs and accepted strings. */
  lemma ParseInvertsDisplay(s: string, id: SessionId)
    ensures ParseId(s) == Some(id) <==> s == Hex(id)
  {
    if s == Hex(id) {
      UnhexHex(id);
    }
    if ParseId(s) == Some(id) {
      HexUnhex(s);
    }
  }

  /** The value of a digit, for a character that is one. */
  predicate IsDigit(c: char, value: int) {
    if c <= '9' then '0' <= c && value == c as int - '0' as int
    else 'a' <= c <= 'f' && value == c as int - 'a' as int + 10
  }

  lemma HexDigit(n: nat)
    requires n < 0x10
    ensures IsDigit(HEX[n], n)
  {
  }

  lemma {:induction false} HexAt(id: seq<Byte>, i: nat)
    requires i < |id|
    ensures Hex(id)[2 * i] == HexByte(id[i])[0] && Hex(id)[2 * i + 1] == HexByte(id[i])[1]
  {
    hide HexByte;
    if i > 0 {
      HexAt(id[1..], i - 1);
      var rest := Hex(id[1..]);
      assert Hex(id) == HexByte(id[0]) + rest;
      assert Hex(id)[2 * i] == rest[2 * (i - 1)] && Hex(id)[2 * i + 1] == rest[2 * (i - 1) + 1];
    }
  }

  /** An ID is displayed in lowercase digits, two for each byte, the higher one first. */
  lemma DisplayedDigits(id: seq<Byte>, i: nat)
    requires i < |id|
    ensures IsDigit(Hex(id)[2 * i], id[i] / 0x10) && IsDigit(Hex(id)[2 * i + 1], id[i] % 0x10)
  {
    hide IsDigit, Hex;
    HexAt(id, i);
    HexDigit(id[i] / 0x10);
    HexDigit(id[i] % 0x10);
  }

  /** Exactly 32 lowercase digits are an ID, and they are its bytes. */
  lemma AcceptedIds(s: string)
    ensures ParseId(s).Some? <==> |s| == 32 && forall i | 0 <= i < |s| :: '0' <= s[i] <= '9' || 'a' <= s[i] <= 'f'
    ensures ParseId(s).Some? ==> forall i | 0 <= i < 16 ::
              IsDigit(s[2 * i], ParseId(s).value[i] / 0x10) && IsDigit(s[2 * i + 1], ParseId(s).value[i] % 0x10)
  {
    if ParseId(s).Some? {
      var id := ParseId(s).value;
      ParseInvertsDisplay(s, id);
      forall i | 0 <= i < 16
        ensures IsDigit(s[2 * i], id[i] / 0x10) && IsDigit(s[2 * i + 1], id[i] % 0x10)
      {
        DisplayedDigits(id, i);
      }
      forall i | 0 <= i < |s| ensures '0' <= s[i] <= '9' || 'a' <= s[i] <= 'f' {
        DisplayedDigits(id, i / 2);
        assert i == 2 * (i / 2) || i == 2 * (i / 2) + 1;
      }
    } else if |s| == 32 && forall i | 0 <= i < |s| :: '0' <= s[i] <= '9' || 'a' <= s[i] <= 'f' {
      DigitsParse(s);
    }
  }

  lemma {:induction false} DigitsParse(s: string)
    requires |s| % 2 == 0 && forall i | 0 <= i < |s| :: '0' <= s[i] <= '9' || 'a' <= s[i] <= 'f'
    ensures Unhex(s).Some?
  {
    if s != "" {
      DigitsParse(s[2..]);
    }
  }

  // ---------------------------------------------------------------- the two loops

  function Prepend(front: seq<Byte>, r: Option<seq<Byte>>): Option<seq<Byte>> {
    match r case Some(rest) => Some(front + rest) case None => None
  }

  lemma UnhexStep(s: string, i: nat, done: seq<Byte>)
    requires |s| % 2 == 0 && 2 * i + 2 <= |s|
    ensures var b := UnhexByte(s[2 * i], s[2 * i + 1]);
            Prepend(done, Unhex(s[2 * i..])) ==
            if b == None then None else Prepend(done + [b.value], Unhex(s[2 * i + 2..]))
  {
    hide UnhexByte;
    var rest, b := s[2 * i..], UnhexByte(s[2 * i], s[2 * i + 1]);
    assert rest[0] == s[2 * i] && rest[1] == s[2 * i + 1] && rest[2..] == s[2 * i + 2..];
    if b.Some? && Unhex(rest[2..]).Some? {
      assert done + ([b.value] + Unhex(rest[2..]).value) == done + [b.value] + Unhex(rest[2..]).value;
    }
  }

  lemma UnhexEmpty()
    ensures Unhex("") == Some([])
  {
  }

  method ParseBytes(encoded: string) returns (r: Option<SessionId>)
    ensures r == ParseId(encoded)
  {
    hide DecodeNibble, Unhex;
    if |encoded| != 2 * ID_BYTES {
      return None;
    }
    var bytes := new Byte[ID_BYTES](_ => 0);
    var index := 0;
    assert encoded[0..] == encoded;
    assert Unhex(encoded).Some? ==> bytes[..0] + Unhex(encoded).value == Unhex(encoded).value;
    while index < ID_BYTES
      invariant 0 <= index <= ID_BYTES
      invariant Unhex(encoded) == Prepend(bytes[..index], Unhex(encoded[2 * index..]))
    {
      ghost var before := bytes[..index];
      UnhexStep(encoded, index, before);
      var high := DecodeNibble(encoded[2 * index]);
      var low := DecodeNibble(encoded[2 * index + 1]);
      if high == None || low == None {
        return None;
      }
      bytes[index] := high.value * 16 + low.value;
      index := index + 1;
      assert bytes[..index] == before + [high.value * 16 + low.value];
    }
    assert encoded[2 * index..] == "" && bytes[..index] + [] == bytes[..];
    UnhexEmpty();
    return Some(bytes[..]);
  }

  lemma HexStep(done: string, id: seq<Byte>, i: nat)
    requires i < |id|
    ensures done + Hex(id[i..]) == done + HexByte(id[i]) + Hex(id[i + 1..])
  {
    DropStep(id, i);
  }

  method Display(id: SessionId) returns (s: string)
    ensures s == Hex(id)
  {
    var encoded := new char[2 * ID_BYTES](_ => '0');
    var index := 0;
    assert id[0..] == id;
    while index < ID_BYTES
      invariant 0 <= index <= ID_BYTES
      invariant encoded[..2 * index] + Hex(id[index..]) == Hex(id)
    {
      ghost var before := encoded[..2 * index];
      HexStep(before, id, index);
      var digits := HexByte(id[index]);
      encoded[2 * index] := digits[0];
      encoded[2 * index + 1] := digits[1];
      assert encoded[..2 * index + 2] == before + digits;
      index := index + 1;
    }
    assert encoded[..2 * index] == encoded[..];
    return encoded[..];
  }

  // ---------------------------------------------------------------- file names

  const SOCKET := ".sock"
  const METADATA := ".json"
  const LOCK := ".lock"
  const OUTPUT := ".out"
  const TRACE := ".trace"

  function NameOf(id: SessionId, suffix: string): string {
    Hex(id) + suffix
  }

  /** Different sessions never share a file, and neither do two roles of one session. */
  lemma NamesIsolated(a: SessionId, x: string, b: SessionId, y: string)
    ensures NameOf(a, x) == NameOf(b, y) <==> a == b && x == y
  {
    if NameOf(a, x) == NameOf(b, y) {
      assert Hex(a) == NameOf(a, x)[..32] && x == NameOf(a, x)[32..];
      assert Hex(b) == NameOf(b, y)[..32] && y == NameOf(b, y)[32..];
      ParseInvertsDisplay(Hex(a), a);
      ParseInvertsDisplay(Hex(a), b);
    }
  }

  function SessionFromMetadataName(name: string): Option<SessionId> {
    if |name| != 37 || name[32..] != METADATA then None else ParseId(name[..32])
  }

  /** The directory scan recognises exactly the metadata names of valid IDs. */
  lemma MetadataNameRecognised(name: string, id: SessionId)
    ensures SessionFromMetadataName(name) == Some(id) <==> name == NameOf(id, METADATA)
    ensures NameOf(id, METADATA) == Hex(id) + ".json"
  {
    if |name| == 37 {
      assert name == name[..32] + name[32..];
      ParseInvertsDisplay(name[..32], id);
    }
    if name == NameOf(id, METADATA) {
      assert name[..32] == Hex(id) && name[32..] == METADATA;
      ParseInvertsDisplay(name[..32], id);
    }
  }

  function Decimal(n: nat): string {
    if n < 10 then [HEX[n]] else Decimal(n / 10) + [HEX[n % 10]]
  }

  /** The name `atomic_write` gives its temporary file. */
  function TemporaryName(name: string, pid: nat): string {
    "." + name + ".tmp." + Decimal(pid)
  }

  /** A temporary file is never taken for a session record, whatever it will be renamed to. */
  lemma TemporaryNeverRecognised(name: string, pid: nat)
    ensures SessionFromMetadataName(TemporaryName(name, pid)) == None
    ensures forall id: SessionId, suffix: string :: TemporaryName(name, pid) != NameOf(id, suffix)
  {
    var temporary := TemporaryName(name, pid);
    assert temporary[0] == '.';
    if SessionFromMetadataName(temporary).Some? {
      var id := SessionFromMetadataName(temporary).value;
      MetadataNameRecognised(temporary, id);
      FirstHexDigit(id, METADATA);
    }
    forall id: SessionId, suffix: string ensures temporary != NameOf(id, suffix) {
      FirstHexDigit(id, suffix);
    }
  }

  /** The number a decimal text stands for. */
  function DecimalValue(text: string): int {
    if text == "" then 0 else 10 * DecimalValue(text[..|text| - 1]) + (text[|text| - 1] as int - '0' as int)
  }

  lemma {:induction false} DecimalDigits(n: nat)
    ensures DecimalValue(Decimal(n)) == n && '.' !in Decimal(n)
  {
    HexDigit(n % 10);
    if n < 10 {
      assert Decimal(n)[..0] == "";
    } else {
      DecimalDigits(n / 10);
      assert Decimal(n)[..|Decimal(n)| - 1] == Decimal(n / 10);
    }
  }

  lemma TemporaryParts(name: string, pid: nat)
    ensures var s, n := TemporaryName(name, pid), |Decimal(pid)|;
            && |s| == |name| + n + 6 && s[|s| - n - 1] == '.' && s[|s| - n..] == Decimal(pid)
            && s[1..|name| + 1] == name
  {
    hide Decimal;
  }

  /** Different writers, and writers of different files, never share a temporary file. */
  lemma TemporariesIsolated(a: string, p: nat, b: string, q: nat)
    ensures TemporaryName(a, p) == TemporaryName(b, q) <==> a == b && p == q
  {
    hide Decimal, DecimalValue, TemporaryName;
    if TemporaryName(a, p) == TemporaryName(b, q) {
      var s, m, n := TemporaryName(a, p), |Decimal(p)|, |Decimal(q)|;
      DecimalDigits(p);
      DecimalDigits(q);
      TemporaryParts(a, p);
      TemporaryParts(b, q);
      assert m == n;
    }
  }

  lemma FirstHexDigit(id: SessionId, suffix: string)
    ensures NameOf(id, suffix)[0] == HEX[id[0] / 16] != '.'
  {
  }
}
