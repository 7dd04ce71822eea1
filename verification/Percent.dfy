/**
 Percent-encoding of identities (src/util.rs), as in section 2.1 of RFC 3986 with
 uppercase digits, and the identities made with it.
 */
module Percent {
  import opened Wrappers
  import opened Utf8
  import opened Tombstones

  predicate IsSafe(b: byte) {
    var c := b as char;
    '0' <= c <= '9' || 'A' <= c <= 'Z' || 'a' <= c <= 'z' || c in "-_.~/"
  }

  function HexDigit(n: nat): char
    requires n < 16
  {
    "0123456789ABCDEF"[n]
  }

  function EscapedByte(b: byte): string {
    if IsSafe(b) then [b as char] else ['%', HexDigit(b as nat / 16), HexDigit(b as nat % 16)]
  }

  function EscapedBytes(bs: seq<byte>): string {
    if bs == [] then "" else EscapedBytes(bs[..|bs| - 1]) + EscapedByte(bs[|bs| - 1])
  }

  function Escaped(raw: string): string {
    EscapedBytes(Encode(raw))
  }

  method Escape(raw: string) returns (out: string)
    ensures out == Escaped(raw)
  {
    out := "";
    var bytes := Encode(raw);
    for i := 0 to |bytes|
      invariant out == EscapedBytes(bytes[..i])
    {
      assert bytes[..i + 1][..i] == bytes[..i];
      if IsSafe(bytes[i]) {
        out := out + [bytes[i] as char];
      } else {
        out := out + ['%', HexDigit(bytes[i] as nat / 16), HexDigit(bytes[i] as nat % 16)];
      }
    }
    assert bytes[..|bytes|] == bytes;
  }

  // ----- reading it back

  function HexValue(b: byte): Option<nat> {
    var c := b as char;
    if '0' <= c <= '9' then Some(b as nat - 0x30)
    else if 'A' <= c <= 'F' then Some(b as nat - 0x37)
    else if 'a' <= c <= 'f' then Some(b as nat - 0x57)
    else None
  }

  // `u8::from_str_radix` takes either case, and a plus sign for the first digit.
  function HexPair(high: byte, low: byte): Option<byte> {
    if HexValue(low).None? then None
    else if high as char == '+' then Some(HexValue(low).value as byte)
    else if HexValue(high).None? then None
    else Some((16 * HexValue(high).value + HexValue(low).value) as byte)
  }

  // The bytes that the rest of an encoding spells, if its escapes are well formed.
  function Spelled(input: seq<byte>): Option<seq<byte>> {
    if input == [] then Some([])
    else if input[0] as char == '%' then
      if |input| < 3 || HexPair(input[1], input[2]).None? then None
      else
        var rest := Spelled(input[3..]);
        if rest.None? then None else Some([HexPair(input[1], input[2]).value] + rest.value)
    else
      var rest := Spelled(input[1..]);
      if rest.None? then None else Some([input[0]] + rest.value)
  }

  lemma AsciiBytes(c: char)
    requires c as int < 0x80
    ensures Encode([c]) == [c as byte]
  {
    assert Encode([c]) == EncodeChar(c) + Encode([]);
  }

  lemma HexSpelled(b: byte)
    ensures HexPair(HexDigit(b as nat / 16) as byte, HexDigit(b as nat % 16) as byte) == Some(b)
  {
    HexDigitValue(b as nat / 16);
    HexDigitValue(b as nat % 16);
  }

  lemma HexDigitValue(n: nat)
    requires n < 16
    ensures HexDigit(n) as int < 0x80 && HexValue(HexDigit(n) as byte) == Some(n) && HexDigit(n) != '+'
  {
  }

  // One escaped byte in front is that byte.
  lemma SpelledByte(b: byte, rest: seq<byte>)
    ensures Spelled(Encode(EscapedByte(b)) + rest)
            == if Spelled(rest).None? then None else Some([b] + Spelled(rest).value)
  {
    var e := EscapedByte(b);
    if IsSafe(b) {
      AsciiBytes(b as char);
      assert (Encode(e) + rest)[1..] == rest;
    } else {
      var high, low := HexDigit(b as nat / 16), HexDigit(b as nat % 16);
      HexSpelled(b);
      HexDigitValue(b as nat / 16);
      HexDigitValue(b as nat % 16);
      AsciiBytes('%');
      AsciiBytes(high);
      AsciiBytes(low);
      EncodeConcat(['%'], [high, low]);
      EncodeConcat([high], [low]);
      assert e == ['%'] + [high, low] && [high, low] == [high] + [low];
      assert Encode(e) == ['%' as byte, high as byte, low as byte];
      assert (Encode(e) + rest)[3..] == rest;
    }
  }

  lemma {:induction false} SpelledEscaped(bs: seq<byte>, rest: seq<byte>)
    ensures Spelled(Encode(EscapedBytes(bs)) + rest)
            == if Spelled(rest).None? then None else Some(bs + Spelled(rest).value)
  {
    hide Spelled, EscapedByte, Encode;
    if bs == [] {
      assert EscapedBytes(bs) == "";
      EncodeNothing();
      assert Encode(EscapedBytes(bs)) + rest == rest;
      if Spelled(rest).Some? {
        assert bs + Spelled(rest).value == Spelled(rest).value;
      }
    } else {
      var most, b := bs[..|bs| - 1], bs[|bs| - 1];
      EncodeConcat(EscapedBytes(most), EscapedByte(b));
      SpelledByte(b, rest);
      SpelledEscaped(most, Encode(EscapedByte(b)) + rest);
      assert Encode(EscapedBytes(bs)) + rest == Encode(EscapedBytes(most)) + (Encode(EscapedByte(b)) + rest);
      if Spelled(rest).Some? {
        assert most + ([b] + Spelled(rest).value) == bs + Spelled(rest).value;
      }
    }
  }

  lemma EncodeNothing()
    ensures Encode("") == [] && Spelled([]) == Some([])
  {
  }

  /** An encoding spells the bytes it was made from. */
  lemma SpelledRoundTrip(raw: string)
    ensures Spelled(Encode(Escaped(raw))) == Some(Encode(raw))
  {
    hide Spelled, EscapedBytes;
    SpelledEscaped(Encode(raw), []);
    EncodeNothing();
    assert Encode(Escaped(raw)) + [] == Encode(Escaped(raw));
    assert Encode(raw) + [] == Encode(raw);
  }

  /** Encoding loses nothing. */
  lemma EscapedInjective(a: string, b: string)
    requires Escaped(a) == Escaped(b)
    ensures a == b
  {
    SpelledRoundTrip(a);
    SpelledRoundTrip(b);
    EncodeInjective(a, b);
  }

  /**
   Decoding is the inverse of encoding and of nothing else: it succeeds exactly on
   encodings, so whatever it accepts encodes to itself again.
   */
  method Unescape(encoded: string) returns (r: Result<string, string>)
    ensures r.Ok? ==> Escaped(r.value) == encoded
    ensures r.Err? ==> forall raw :: Escaped(raw) != encoded
  {
    hide Encode, Decode, Escaped, HexPair;
    var input := Encode(encoded);
    var bytes: seq<byte> := [];
    var i := 0;
    forall raw | Escaped(raw) == encoded
      ensures Spelled(input) == Some(Encode(raw)) && Decode(Encode(raw)) == Some(raw) {
      SpelledRoundTrip(raw);
      DecodeEncode(raw);
    }
    assert input[0..] == input;
    assert Spelled(input).Some? ==> bytes + Spelled(input).value == Spelled(input).value;
    while i < |input|
      invariant 0 <= i <= |input|
      invariant Spelled(input) == if Spelled(input[i..]).None? then None else Some(bytes + Spelled(input[i..]).value)
    {
      ghost var tail := input[i..];
      if input[i] as char == '%' {
        if i + 3 > |input| || HexPair(input[i + 1], input[i + 2]).None? {
          return Err("invalid percent encoding");
        }
        assert tail[3..] == input[i + 3..];
        SpelledTail(bytes, HexPair(input[i + 1], input[i + 2]).value, input[i + 3..]);
        bytes := bytes + [HexPair(input[i + 1], input[i + 2]).value];
        i := i + 3;
      } else {
        assert tail[1..] == input[i + 1..];
        SpelledTail(bytes, input[i], input[i + 1..]);
        bytes := bytes + [input[i]];
        i := i + 1;
      }
    }
    assert input[i..] == [] && bytes + [] == bytes;
    var raw := Decode(bytes);
    if raw.None? {
      return Err("identity is not UTF-8");
    }
    var again := Escape(raw.value);
    if again != encoded {
      return Err("noncanonical identity");
    }
    return Ok(raw.value);
  }

  lemma SpelledTail(bytes: seq<byte>, b: byte, rest: seq<byte>)
    ensures Spelled(rest).Some? ==> bytes + ([b] + Spelled(rest).value) == (bytes + [b]) + Spelled(rest).value
  {
  }

  // ----- the form of an encoding

  // The unreserved characters of section 2.3 of RFC 3986.
  predicate Unreserved(c: char) {
    'A' <= c <= 'Z' || 'a' <= c <= 'z' || '0' <= c <= '9' || c == '-' || c == '.' || c == '_' || c == '~'
  }

  function UpperHex(c: char): Option<nat> {
    if '0' <= c <= '9' then Some(c as nat - 0x30) else if 'A' <= c <= 'F' then Some(c as nat - 0x37) else None
  }

  // An escape has two uppercase digits and is of a byte that is not written as it is.
  predicate IsEscape(s: string) {
    && |s| == 3 && s[0] == '%' && UpperHex(s[1]).Some? && UpperHex(s[2]).Some?
    && var c := (16 * UpperHex(s[1]).value + UpperHex(s[2]).value) as char; !Unreserved(c) && c != '/'
  }

  predicate Canonical(s: string) {
    || s == ""
    || ((Unreserved(s[0]) || s[0] == '/') && Canonical(s[1..]))
    || (|s| >= 3 && IsEscape(s[..3]) && Canonical(s[3..]))
  }

  lemma EscapedByteIsCanonical(b: byte)
    ensures Canonical(EscapedByte(b))
  {
    var s := EscapedByte(b);
    if IsSafe(b) {
      assert s[1..] == "";
    } else {
      assert s[..3] == s && s[3..] == "";
      UpperDigit(b as nat / 16);
      UpperDigit(b as nat % 16);
      assert IsEscape(s);
    }
  }

  lemma UpperDigit(n: nat)
    requires n < 16
    ensures UpperHex(HexDigit(n)) == Some(n)
  {
  }

  lemma {:induction false} CanonicalConcat(a: string, b: string)
    requires Canonical(a) && Canonical(b)
    ensures Canonical(a + b)
    decreases |a|
  {
    var s := a + b;
    if a == "" {
      assert s == b;
    } else if (Unreserved(a[0]) || a[0] == '/') && Canonical(a[1..]) {
      assert s[1..] == a[1..] + b;
      CanonicalConcat(a[1..], b);
    } else {
      assert s[..3] == a[..3] && s[3..] == a[3..] + b;
      CanonicalConcat(a[3..], b);
    }
  }

  /**
   An encoding consists of unreserved characters, slashes, and escapes with uppercase
   digits of bytes that are neither.
   */
  lemma EscapedIsCanonical(raw: string)
    ensures Canonical(Escaped(raw))
  {
    BytesAreCanonical(Encode(raw));
  }

  lemma {:induction false} BytesAreCanonical(bs: seq<byte>)
    ensures Canonical(EscapedBytes(bs))
  {
    hide Canonical, EscapedByte;
    if bs == [] {
      NothingIsCanonical();
    } else {
      BytesAreCanonical(bs[..|bs| - 1]);
      EscapedByteIsCanonical(bs[|bs| - 1]);
      CanonicalConcat(EscapedBytes(bs[..|bs| - 1]), EscapedByte(bs[|bs| - 1]));
    }
  }

  lemma NothingIsCanonical()
    ensures Canonical("")
  {
  }

  // ----- identities

  function ItemId(project: string, source: string, native: string): string {
    "mq:" + project + ":" + source + ":" + Escaped(native)
  }

  // The same field by field, for colon-free parts.
  lemma {:induction false} FieldSkips(part: string, rest: string, n: nat)
    requires ':' !in part
    ensures Field(part + [':'] + rest, n) == if n == 0 then part else Field(rest, n - 1)
  {
    var s := part + [':'] + rest;
    if part == [] {
      assert s[1..] == rest;
    } else {
      assert s[1..] == part[1..] + [':'] + rest;
      FieldSkips(part[1..], rest, n);
    }
  }

  lemma {:induction false} PartsDetermined(a: string, x: string, b: string, y: string)
    requires ':' !in a && ':' !in b && a + [':'] + x == b + [':'] + y
    ensures a == b && x == y
  {
    var s, t := a + [':'] + x, b + [':'] + y;
    if a == [] || b == [] {
      assert s[0] == t[0];
      assert a == [] && b == [];
      assert s[1..] == x && t[1..] == y;
    } else {
      assert s[0] == a[0] && t[0] == b[0];
      assert s[1..] == a[1..] + [':'] + x && t[1..] == b[1..] + [':'] + y;
      PartsDetermined(a[1..], x, b[1..], y);
      assert a == [a[0]] + a[1..] && b == [b[0]] + b[1..];
    }
  }

  lemma IdIsParts(project: string, source: string, native: string)
    ensures ItemId(project, source, native) == "mq" + [':'] + (project + [':'] + (source + [':'] + Escaped(native)))
  {
    assert "mq:" == "mq" + [':'];
  }

  /** Identities are injective, and the third field of one is its source, as exclusion by identity relies on. */
  lemma IdentityDetermines(p: string, s: string, n: string, p': string, s': string, n': string)
    requires ':' !in p && ':' !in s && ':' !in p' && ':' !in s'
    ensures ItemId(p, s, n) == ItemId(p', s', n') ==> p == p' && s == s' && n == n'
    ensures ThirdField(ItemId(p, s, n)) == s
  {
    hide Escaped, Field;
    IdIsParts(p, s, n);
    IdIsParts(p', s', n');
    FieldSkips("mq", p + [':'] + (s + [':'] + Escaped(n)), 2);
    FieldSkips(p, s + [':'] + Escaped(n), 1);
    FieldSkips(s, Escaped(n), 0);
    if ItemId(p, s, n) == ItemId(p', s', n') {
      PartsDetermined("mq", p + [':'] + (s + [':'] + Escaped(n)), "mq", p' + [':'] + (s' + [':'] + Escaped(n')));
      PartsDetermined(p, s + [':'] + Escaped(n), p', s' + [':'] + Escaped(n'));
      PartsDetermined(s, Escaped(n), s', Escaped(n'));
      EscapedInjective(n, n');
    }
  }

  /** A predicate that names a project matches the identities of that project and of no other. */
  lemma ProjectMatches(time: ParseTime, p: Predicate, q: string, project: string, source: string, native: string,
                       recordedAt: Option<string>)
    requires ':' !in project && ':' !in q && p.projectId == Some(q)
    ensures Matches(time, p, ItemId(project, source, native), source, recordedAt) <==>
            project == q && Matches(time, p.(projectId := None), ItemId(project, source, native), source, recordedAt)
  {
    hide Escaped, InInterval, HasPrefix;
    PrefixIsProject(q, project, source, native);
    FieldsNarrow(time, p, ItemId(project, source, native), source, recordedAt);
  }

  lemma PrefixIsProject(q: string, project: string, source: string, native: string)
    requires ':' !in project && ':' !in q
    ensures HasPrefix(ItemId(project, source, native), "mq:" + q + ":") <==> project == q
  {
    hide Escaped;
    var id, tail := ItemId(project, source, native), source + [':'] + Escaped(native);
    IdIsParts(project, source, native);
    var front := "mq:" + q + ":";
    assert front == "mq" + [':'] + (q + [':']);
    if project == q {
      assert id == front + tail;
    }
    if HasPrefix(id, front) {
      var rest := id[|front|..];
      assert id == "mq" + [':'] + (q + [':'] + rest);
      PartsDetermined("mq", project + [':'] + tail, "mq", q + [':'] + rest);
      PartsDetermined(project, tail, q, rest);
    }
  }
}
