/** UTF-8, and the byte offsets at which a Rust string may be cut. */
module Utf8 {
  import opened Wrappers

  newtype byte = x: int | 0 <= x < 256

  function Tail(n: nat): byte {
    (0x80 + n % 0x40) as byte
  }

  // One scalar value in one to four bytes.
  function EncodeChar(c: char): (bs: seq<byte>)
    ensures 1 <= |bs| <= 4 && !Continuation(bs[0]) && |bs| == LeadWidth(bs[0])
    ensures forall i :: 1 <= i < |bs| ==> Continuation(bs[i])
  {
    var n := c as nat;
    if n < 0x80 then [n as byte]
    else if n < 0x800 then [(0xC0 + n / 0x40) as byte, Tail(n)]
    else if n < 0x1_0000 then [(0xE0 + n / 0x1000) as byte, Tail(n / 0x40), Tail(n)]
    else [(0xF0 + n / 0x4_0000) as byte, Tail(n / 0x1000), Tail(n / 0x40), Tail(n)]
  }

  function Encode(s: string): seq<byte> {
    if s == [] then [] else EncodeChar(s[0]) + Encode(s[1..])
  }

  predicate Continuation(b: byte) {
    0x80 <= b < 0xC0
  }

  // The length of a character, told by its first byte.
  function LeadWidth(b: byte): nat {
    if b < 0x80 then 1 else if b < 0xE0 then 2 else if b < 0xF0 then 3 else 4
  }

  // `str::is_char_boundary`.
  predicate Boundary(bs: seq<byte>, i: nat) {
    i == 0 || i == |bs| || (i < |bs| && !Continuation(bs[i]))
  }

  lemma CharInjective(a: char, b: char)
    requires EncodeChar(a) == EncodeChar(b)
    ensures a == b
  {
    var m, n := a as nat, b as nat;
    assert EncodeChar(a)[0] == EncodeChar(b)[0];
    var w := |EncodeChar(a)|;
    if w >= 2 { assert EncodeChar(a)[1] == EncodeChar(b)[1]; }
    if w >= 3 { assert EncodeChar(a)[2] == EncodeChar(b)[2]; }
    if w >= 4 { assert EncodeChar(a)[3] == EncodeChar(b)[3]; }
    DigitsOf(m);
    DigitsOf(n);
    assert m == n;
  }

  lemma DigitsOf(n: nat)
    ensures n == 0x40 * (n / 0x40) + n % 0x40
    ensures n / 0x40 == 0x40 * (n / 0x1000) + (n / 0x40) % 0x40
    ensures n / 0x1000 == 0x40 * (n / 0x4_0000) + (n / 0x1000) % 0x40
  {
  }

  /** Text is determined by its bytes. */
  lemma {:induction false} EncodeInjective(a: string, b: string)
    requires Encode(a) == Encode(b)
    ensures a == b
  {
    if a == [] || b == [] {
      assert a == [] && b == [];
    } else {
      var w := LeadWidth(Encode(a)[0]);
      assert EncodeChar(a[0]) == Encode(a)[..w] == Encode(b)[..w] == EncodeChar(b[0]);
      CharInjective(a[0], b[0]);
      assert Encode(a[1..]) == Encode(a)[w..] == Encode(b)[w..] == Encode(b[1..]);
      EncodeInjective(a[1..], b[1..]);
      assert a == [a[0]] + a[1..] && b == [b[0]] + b[1..];
    }
  }

  lemma {:induction false} EncodeConcat(a: string, b: string)
    ensures Encode(a + b) == Encode(a) + Encode(b)
  {
    if a == [] {
      assert a + b == b;
    } else {
      assert (a + b)[1..] == a[1..] + b;
      EncodeConcat(a[1..], b);
    }
  }

  lemma NoBoundaryInside(s: string, i: nat)
    requires s != [] && 0 < i < |EncodeChar(s[0])|
    ensures !Boundary(Encode(s), i)
  {
    assert Encode(s)[i] == EncodeChar(s[0])[i];
  }

  /** The boundaries of encoded text are exactly the ends of its prefixes. */
  lemma {:induction false} BoundaryIsPrefix(s: string, i: nat) returns (k: nat)
    requires i <= |Encode(s)| && Boundary(Encode(s), i)
    ensures k <= |s| && i == |Encode(s[..k])|
  {
    hide EncodeChar;
    k := 0;
    if 0 < i < |EncodeChar(s[0])| {
      NoBoundaryInside(s, i);
    } else if i > 0 {
      var w := |EncodeChar(s[0])|;
      assert i > w && i < |Encode(s)| ==> Encode(s)[i] == Encode(s[1..])[i - w];
      var j := BoundaryIsPrefix(s[1..], i - w);
      k := j + 1;
      assert s[..k] == [s[0]] + s[1..][..j];
      assert s[..k][1..] == s[1..][..j];
    }
  }

  lemma {:induction false} PrefixIsBoundary(s: string, k: nat)
    requires k <= |s|
    ensures |Encode(s[..k])| <= |Encode(s)| && Boundary(Encode(s), |Encode(s[..k])|)
    ensures Encode(s) == Encode(s[..k]) + Encode(s[k..])
  {
    assert s == s[..k] + s[k..];
    EncodeConcat(s[..k], s[k..]);
  }

  /** Text cut at two boundaries is text. */
  lemma SliceIsText(s: string, start: nat, stop: nat) returns (piece: string)
    requires start <= stop <= |Encode(s)| && Boundary(Encode(s), start) && Boundary(Encode(s), stop)
    ensures Encode(piece) == Encode(s)[start..stop]
  {
    var k := BoundaryIsPrefix(s, stop);
    PrefixIsBoundary(s, k);
    var head := s[..k];
    assert Encode(head) == Encode(s)[..stop];
    if start == stop {
      return "";
    }
    assert Boundary(Encode(head), start) by {
      assert start < stop && (start == 0 || Encode(head)[start] == Encode(s)[start]);
    }
    var j := BoundaryIsPrefix(head, start);
    PrefixIsBoundary(head, j);
    piece := head[j..];
  }

  // The end of the character that starts at a boundary.
  function CharEnd(bs: seq<byte>, start: nat): nat
    requires start < |bs|
  {
    start + LeadWidth(bs[start])
  }

  lemma CharEndIsNext(s: string, start: nat)
    requires start < |Encode(s)| && Boundary(Encode(s), start)
    ensures start < CharEnd(Encode(s), start) <= |Encode(s)| && Boundary(Encode(s), CharEnd(Encode(s), start))
  {
    hide EncodeChar, Continuation, LeadWidth;
    var k := BoundaryIsPrefix(s, start);
    PrefixIsBoundary(s, k);
    assert s[..|s|] == s;
    CharAt(s, k);
    PrefixIsBoundary(s, k + 1);
  }

  lemma CharAt(s: string, k: nat)
    requires k < |s|
    ensures var i := |Encode(s[..k])|;
      && i < |Encode(s)| && LeadWidth(Encode(s)[i]) == |EncodeChar(s[k])|
      && |Encode(s[..k + 1])| == i + |EncodeChar(s[k])|
  {
    hide EncodeChar, Continuation, LeadWidth, Boundary;
    PrefixIsBoundary(s, k);
    assert Encode(s[k..]) == EncodeChar(s[k]) + Encode(s[k..][1..]);
    assert Encode(s)[|Encode(s[..k])|] == Encode(s[k..])[0];
    assert s[..k + 1] == s[..k] + [s[k]];
    EncodeConcat(s[..k], [s[k]]);
    assert Encode([s[k]]) == EncodeChar(s[k]) + Encode([]);
  }

  /** The last boundary at or before an offset (src/budget.rs `utf8_end`). */
  method Utf8End(bs: seq<byte>, at: nat) returns (end: nat)
    ensures end <= at && end <= |bs| && Boundary(bs, end)
    ensures forall i :: end < i <= at && i <= |bs| ==> !Boundary(bs, i)
  {
    end := if at < |bs| then at else |bs|;
    while !Boundary(bs, end)
      invariant end <= at && end <= |bs|
      invariant forall i :: end < i <= at && i <= |bs| ==> !Boundary(bs, i)
      decreases end
    {
      end := end - 1;
    }
  }

  // ----- reading bytes as text

  function Low(b: byte): nat {
    b as nat % 0x40
  }

  // The number that a character's bytes spell, right or wrong.
  function CodeOf(bs: seq<byte>): nat
    requires 1 <= |bs| <= 4
  {
    if |bs| == 1 then bs[0] as nat
    else if |bs| == 2 then bs[0] as nat % 0x20 * 0x40 + Low(bs[1])
    else if |bs| == 3 then bs[0] as nat % 0x10 * 0x1000 + Low(bs[1]) * 0x40 + Low(bs[2])
    else bs[0] as nat % 0x08 * 0x4_0000 + Low(bs[1]) * 0x1000 + Low(bs[2]) * 0x40 + Low(bs[3])
  }

  predicate IsScalar(n: nat) {
    n < 0xD800 || 0xE000 <= n < 0x11_0000
  }

  // `String::from_utf8`: every character in its one proper encoding.
  function Decode(bs: seq<byte>): Option<string> {
    if bs == [] then Some("")
    else
      var w := LeadWidth(bs[0]);
      if w > |bs| || !IsScalar(CodeOf(bs[..w])) || EncodeChar(CodeOf(bs[..w]) as char) != bs[..w] then None
      else
        var rest := Decode(bs[w..]);
        if rest.None? then None else Some([CodeOf(bs[..w]) as char] + rest.value)
  }

  lemma CodeOfChar(c: char)
    ensures CodeOf(EncodeChar(c)) == c as nat && IsScalar(c as nat)
  {
    hide Tail, Low;
    var n := c as nat;
    DigitsOf(n);
    TailLow(n);
    TailLow(n / 0x40);
    TailLow(n / 0x1000);
    LeadRemainder(n / 0x40);
    LeadRemainder(n / 0x1000);
    LeadRemainder(n / 0x4_0000);
  }

  lemma TailLow(n: nat)
    ensures Low(Tail(n)) == n % 0x40
  {
  }

  lemma LeadRemainder(k: nat)
    ensures k < 0x20 ==> (0xC0 + k) % 0x20 == k
    ensures k < 0x10 ==> (0xE0 + k) % 0x10 == k
    ensures k < 0x08 ==> (0xF0 + k) % 0x08 == k
  {
  }

  lemma {:induction false} DecodeEncode(s: string)
    ensures Decode(Encode(s)) == Some(s)
  {
    hide EncodeChar, CodeOf, LeadWidth;
    if s != [] {
      var bs, w := Encode(s), |EncodeChar(s[0])|;
      CodeOfChar(s[0]);
      assert bs[..w] == EncodeChar(s[0]) && bs[w..] == Encode(s[1..]) && LeadWidth(bs[0]) == w;
      DecodeEncode(s[1..]);
      assert s == [s[0]] + s[1..];
    }
  }
}
