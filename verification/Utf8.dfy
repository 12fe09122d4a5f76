/**
  Strict UTF-8 on NUL-terminated byte buffers: scalar lengths, validation, packing of
  one scalar into a word, stepping back over a scalar and copying whole scalars.
 */
module Utf8 {
  import opened Common

  // ------------------------------------------------------ reference encoding

  /** A nonzero Unicode scalar value. */
  predicate IsScalar(c: int) {
    0 < c < 0xD800 || 0xE000 <= c <= 0x10FFFF
  }

  predicate AllScalars(cs: seq<int>) {
    forall i :: 0 <= i < |cs| ==> IsScalar(cs[i])
  }

  /** The encoding of one scalar, section 3 of RFC 3629. */
  function Encode(c: int): (s: seq<byte>)
    requires IsScalar(c)
    ensures 1 <= |s| <= 4
  {
    if c < 0x80 then [c]
    else if c < 0x800 then [0xC0 + c / 64, 0x80 + c % 64]
    else if c < 0x10000 then [0xE0 + c / 4096, 0x80 + c / 64 % 64, 0x80 + c % 64]
    else [0xF0 + c / 262144, 0x80 + c / 4096 % 64, 0x80 + c / 64 % 64, 0x80 + c % 64]
  }

  function EncodeAll(cs: seq<int>): seq<byte>
    requires AllScalars(cs)
  {
    if cs == [] then [] else Encode(cs[0]) + EncodeAll(cs[1..])
  }

  /** A buffer holds valid text when it starts with encoded nonzero scalars and a NUL. */
  ghost predicate ValidText(buffer: seq<byte>) {
    exists cs :: AllScalars(cs) && EncodeAll(cs) + [0] <= buffer
  }

  predicate IsTail(b: byte) { 0x80 <= b <= 0xBF }

  /** Length of the scalar that begins the bytes, by the syntax in section 4 of RFC 3629; 0 when there is none. */
  function ScalarLen(s: seq<byte>): (n: nat)
    ensures n <= |s| && n <= 4
  {
    if |s| == 0 then 0
    else if 0 < s[0] < 0x80 then 1
    else if |s| >= 2 && 0xC2 <= s[0] <= 0xDF && IsTail(s[1]) then 2
    else if |s| >= 3 && IsTail(s[2]) &&
            ( || (s[0] == 0xE0 && 0xA0 <= s[1] <= 0xBF)
              || (0xE1 <= s[0] <= 0xEC && IsTail(s[1]))
              || (s[0] == 0xED && 0x80 <= s[1] <= 0x9F)
              || (0xEE <= s[0] <= 0xEF && IsTail(s[1]))) then 3
    else if |s| >= 4 && IsTail(s[2]) && IsTail(s[3]) &&
            ( || (s[0] == 0xF0 && 0x90 <= s[1] <= 0xBF)
              || (0xF1 <= s[0] <= 0xF3 && IsTail(s[1]))
              || (s[0] == 0xF4 && 0x80 <= s[1] <= 0x8F)) then 4
    else 0
  }

  /** The value that the payload bits of one to four bytes spell. */
  function Decode(s: seq<byte>): int
    requires 1 <= |s| <= 4
  {
    var a: int := s[0];
    var b: int := if |s| > 1 then s[1] else 0;
    var c: int := if |s| > 2 then s[2] else 0;
    var d: int := if |s| > 3 then s[3] else 0;
    if |s| == 1 then a
    else if |s| == 2 then (a - 0xC0) * 64 + (b - 0x80)
    else if |s| == 3 then (a - 0xE0) * 4096 + (b - 0x80) * 64 + (c - 0x80)
    else (a - 0xF0) * 262144 + (b - 0x80) * 4096 + (c - 0x80) * 64 + (d - 0x80)
  }

  /** Base-64 digits of a number. */
  lemma Digits(a: int, b: int, c: int, d: int)
    requires 0 <= a && 0 <= b < 64 && 0 <= c < 64 && 0 <= d < 64
    ensures var v := a * 262144 + b * 4096 + c * 64 + d;
            v % 64 == d && v / 64 % 64 == c && v / 4096 % 64 == b && v / 262144 == a
  {
    var v := a * 262144 + b * 4096 + c * 64 + d;
    assert v / 64 == a * 4096 + b * 64 + c;
    assert v / 4096 == a * 64 + b;
  }

  lemma Digits3(b: int, c: int, d: int)
    requires 0 <= b < 64 && 0 <= c < 64 && 0 <= d < 64
    ensures var v := b * 4096 + c * 64 + d; v % 64 == d && v / 64 % 64 == c && v / 4096 == b
  {
    var v := b * 4096 + c * 64 + d;
    assert v / 64 == b * 64 + c;
  }

  /** The syntax accepts only encodings of scalars, and decoding them loses nothing. */
  lemma ScalarLenSound(s: seq<byte>)
    requires ScalarLen(s) > 0
    ensures var c := Decode(s[..ScalarLen(s)]); IsScalar(c) && Encode(c) == s[..ScalarLen(s)]
  {
    var n := ScalarLen(s);
    if n == 2 {
      Sound2(s[..2]);
    } else if n == 3 {
      Sound3(s[..3]);
    } else if n == 4 {
      Sound4(s[..4]);
    }
  }

  lemma Sound2(s: seq<byte>)
    requires |s| == 2 == ScalarLen(s)
    ensures IsScalar(Decode(s)) && Encode(Decode(s)) == s
  {
    var a: int, b: int := s[0], s[1];
    Digits3(0, a - 0xC0, b - 0x80);
  }

  lemma Sound3(s: seq<byte>)
    requires |s| == 3 == ScalarLen(s)
    ensures IsScalar(Decode(s)) && Encode(Decode(s)) == s
  {
    var a: int, b: int, c: int := s[0], s[1], s[2];
    Digits3(a - 0xE0, b - 0x80, c - 0x80);
  }

  lemma Sound4(s: seq<byte>)
    requires |s| == 4 == ScalarLen(s)
    ensures IsScalar(Decode(s)) && Encode(Decode(s)) == s
  {
    var a: int, b: int, c: int, d: int := s[0], s[1], s[2], s[3];
    Digits(a - 0xF0, b - 0x80, c - 0x80, d - 0x80);
  }

  /** The syntax accepts every encoding, whatever follows it, and decoding inverts encoding. */
  lemma ScalarLenComplete(c: int, rest: seq<byte>)
    requires IsScalar(c)
    ensures ScalarLen(Encode(c) + rest) == |Encode(c)| && Decode(Encode(c)) == c
  {
    var s := Encode(c) + rest;
    assert forall k :: 0 <= k < |Encode(c)| ==> s[k] == Encode(c)[k];
    assert c / 64 / 64 == c / 4096 && c / 4096 / 64 == c / 262144;
  }

  /** First byte never a tail, later bytes always tails, and none is NUL. */
  lemma EncodeShape(c: int)
    requires IsScalar(c)
    ensures !IsTail(Encode(c)[0])
    ensures forall k :: 1 <= k < |Encode(c)| ==> IsTail(Encode(c)[k])
    ensures 0 !in Encode(c)
  {}

  // ------------------------------------------------------------- sequences

  lemma {:induction false} EncodeAllAppend(cs: seq<int>, ds: seq<int>)
    requires AllScalars(cs) && AllScalars(ds)
    ensures AllScalars(cs + ds) && EncodeAll(cs + ds) == EncodeAll(cs) + EncodeAll(ds)
  {
    hide Encode;
    hide IsScalar;
    if cs == [] {
      assert cs + ds == ds;
    } else {
      assert (cs + ds)[1..] == cs[1..] + ds;
      EncodeAllAppend(cs[1..], ds);
    }
  }

  lemma EncodeAllOne(c: int)
    requires IsScalar(c)
    ensures EncodeAll([c]) == Encode(c)
  {}

  lemma {:induction false} EncodeAllNonzero(cs: seq<int>)
    requires AllScalars(cs)
    ensures 0 !in EncodeAll(cs)
  {
    if cs != [] {
      EncodeShape(cs[0]);
      EncodeAllNonzero(cs[1..]);
    }
  }

  /** Two decodings of one buffer agree: a decoded prefix is a prefix of every decoding of the text. */
  lemma {:induction false} DecodingUnique(cs: seq<int>, ds: seq<int>, buffer: seq<byte>)
    requires AllScalars(cs) && AllScalars(ds)
    requires EncodeAll(cs) <= buffer && EncodeAll(ds) + [0] <= buffer
    ensures cs <= ds
  {
    if cs != [] {
      var first := Encode(cs[0]);
      EncodeShape(cs[0]);
      assert buffer[0] == first[0] != 0;
      assert (EncodeAll(ds) + [0])[0] == buffer[0];
      HeadUnique(cs[0], ds[0], buffer);
      TailPrefix(first, EncodeAll(cs[1..]), buffer);
      TailPrefix(first, EncodeAll(ds[1..]) + [0], buffer);
      DecodingUnique(cs[1..], ds[1..], buffer[|first|..]);
    }
  }

  lemma TailPrefix(a: seq<byte>, b: seq<byte>, buffer: seq<byte>)
    requires a + b <= buffer
    ensures a <= buffer && b <= buffer[|a|..]
  {}

  lemma HeadUnique(c: int, d: int, buffer: seq<byte>)
    requires IsScalar(c) && IsScalar(d) && Encode(c) <= buffer && Encode(d) <= buffer
    ensures c == d
  {
    assert buffer == Encode(c) + buffer[|Encode(c)|..] == Encode(d) + buffer[|Encode(d)|..];
    ScalarLenComplete(c, buffer[|Encode(c)|..]);
    ScalarLenComplete(d, buffer[|Encode(d)|..]);
    assert Encode(c) == Encode(d);
  }

  /** A text that starts with a scalar's encoding: its first byte and its scalar length. */
  lemma StartsWith(c: int, text: seq<byte>)
    requires IsScalar(c) && Encode(c) <= text
    ensures 0 < |Encode(c)| && text[0] == Encode(c)[0] != 0 && ScalarLen(text) == |Encode(c)|
  {
    hide Encode;
    hide ScalarLen;
    EncodeShape(c);
    assert text == Encode(c) + text[|Encode(c)|..];
    ScalarLenComplete(c, text[|Encode(c)|..]);
  }

  /** Text of at least one scalar starts with that scalar and goes on with the rest. */
  lemma FirstOf(cs: seq<int>, text: seq<byte>)
    requires AllScalars(cs) && cs != [] && EncodeAll(cs) + [0] <= text
    ensures Encode(cs[0]) <= text && EncodeAll(cs[1..]) + [0] <= text[|Encode(cs[0])|..]
  {
    hide Encode;
    var first, rest := Encode(cs[0]), EncodeAll(cs[1..]);
    assert EncodeAll(cs) + [0] == first + (rest + [0]);
    TailPrefix(first, rest + [0], text);
  }

  /** The bytes after a decoded prefix of valid text begin with its next scalar, or with the NUL. */
  lemma NextScalar(cs: seq<int>, ds: seq<int>, buffer: seq<byte>)
    requires AllScalars(cs) && AllScalars(ds) && cs <= ds
    requires EncodeAll(ds) + [0] <= buffer
    ensures |EncodeAll(cs)| < |buffer| && EncodeAll(cs) <= buffer
    ensures cs == ds <==> buffer[|EncodeAll(cs)|] == 0
    ensures cs < ds ==> ScalarLen(buffer[|EncodeAll(cs)|..]) == |Encode(ds[|cs|])|
  {
    hide Encode;
    hide ScalarLen;
    hide IsScalar;
    var es := ds[|cs|..];
    assert cs + es == ds;
    EncodeAllAppend(cs, es);
    AfterPrefix(EncodeAll(cs), EncodeAll(es), buffer);
    var rest := buffer[|EncodeAll(cs)|..];
    if es != [] {
      FirstOf(es, rest);
      StartsWith(es[0], rest);
    } else {
      NoText(rest);
    }
  }

  lemma AfterPrefix(a: seq<byte>, b: seq<byte>, buffer: seq<byte>)
    requires a + b + [0] <= buffer
    ensures a <= buffer && |a| < |buffer| && b + [0] <= buffer[|a|..]
  {}

  lemma NoText(rest: seq<byte>)
    requires EncodeAll([]) + [0] <= rest
    ensures rest[0] == 0
  {}

  // ------------------------------------------------------- the C functions

  /** Bytes of the scalar at `at`. Reads no further than the first byte that is not a tail. */
  method ScalarBytes(text: seq<byte>, at: nat, available: nat) returns (n: nat)
    requires at <= |text| && (at + available <= |text| || 0 in text[at..])
    ensures n == ScalarLen(text[at..if at + available <= |text| then at + available else |text|])
  {
    ghost var s := text[at..if at + available <= |text| then at + available else |text|];
    if available == 0 { return 0; }
    var lead := text[at];
    if 0 < lead < 0x80 { return 1; }
    n := if 0xC2 <= lead <= 0xDF then 2 else if 0xE0 <= lead <= 0xEF then 3 else if 0xF0 <= lead <= 0xF4 then 4 else 0;
    if n == 0 || n > available { return 0; }
    var i := 1;
    while i < n
      invariant 1 <= i <= n && i <= |s|
      invariant forall k :: 1 <= k < i ==> IsTail(s[k])
    {
      if i == |s| { assert forall k :: 0 <= k < |s| ==> text[at..][k] == s[k] != 0; }
      assert text[at + i] == s[i];
      if text[at + i] / 64 != 2 { return 0; }
      i := i + 1;
    }
    assert s[1] == text[at + 1];
    if || (lead == 0xE0 && text[at + 1] < 0xA0) || (lead == 0xED && text[at + 1] >= 0xA0)
       || (lead == 0xF0 && text[at + 1] < 0x90) || (lead == 0xF4 && text[at + 1] >= 0x90) {
      return 0;
    }
  }

  /** Reading one more scalar extends the decoded prefix. */
  lemma DecodedOne(text: seq<byte>, i: nat, cs: seq<int>) returns (ds: seq<int>)
    requires i <= |text| && AllScalars(cs) && EncodeAll(cs) == text[..i] && ScalarLen(text[i..]) > 0
    ensures AllScalars(ds) && EncodeAll(ds) == text[..i + ScalarLen(text[i..])]
  {
    var n := ScalarLen(text[i..]);
    ScalarLenSound(text[i..]);
    var c := Decode(text[i..][..n]);
    EncodeAllAppend(cs, [c]);
    EncodeAllOne(c);
    assert text[..i] + text[i..][..n] == text[..i + n];
    ds := cs + [c];
  }

  /** A decoded prefix that neither ends at a NUL nor continues with a scalar rules out valid text. */
  lemma Stuck(text: seq<byte>, i: nat, cs: seq<int>)
    requires i <= |text| && AllScalars(cs) && EncodeAll(cs) == text[..i]
    requires i < |text| ==> text[i] != 0 && ScalarLen(text[i..]) == 0
    ensures !ValidText(text)
  {
    forall ds | AllScalars(ds) && EncodeAll(ds) + [0] <= text ensures false {
      DecodingUnique(cs, ds, text);
      NextScalar(cs, ds, text);
    }
  }

  /** Validation accepts exactly the buffers that hold NUL-terminated nonzero scalars. */
  method Valid(text: seq<byte>) returns (ok: bool)
    ensures ok <==> ValidText(text)
  {
    var i := 0;
    ghost var cs: seq<int> := [];
    while i < |text| && text[i] != 0
      invariant i <= |text| && AllScalars(cs) && EncodeAll(cs) == text[..i]
    {
      var n := ScalarBytes(text, i, |text| - i);
      assert text[i..|text|] == text[i..];
      if n == 0 {
        Stuck(text, i, cs);
        return false;
      }
      cs := DecodedOne(text, i, cs);
      i := i + n;
    }
    if i < |text| {
      assert EncodeAll(cs) + [0] <= text;
    } else {
      Stuck(text, i, cs);
    }
    ok := i < |text|;
  }

  /** Little-endian value of up to four bytes. */
  function Pack(s: seq<byte>): nat {
    if s == [] then 0 else s[0] + 256 * Pack(s[1..])
  }

  function Unpack(p: nat): seq<byte> {
    if p == 0 then [] else [p % 256] + Unpack(p / 256)
  }

  /** A packed scalar unpacks to its bytes. */
  lemma {:induction false} UnpackPack(s: seq<byte>)
    requires 0 !in s
    ensures Unpack(Pack(s)) == s
  {
    if s != [] {
      hide Pack;
      assert s[0] in s;
      assert forall b <- s[1..] :: b in s;
      UnpackPack(s[1..]);
      PackParts(s);
      assert [s[0]] + s[1..] == s;
    }
  }

  lemma PackParts(s: seq<byte>)
    requires s != []
    ensures Pack(s) % 256 == s[0] && Pack(s) / 256 == Pack(s[1..])
  {
    Remainder(Pack(s), 256, Pack(s[1..]), s[0]);
  }

  lemma {:induction false} PackSnoc(s: seq<byte>, b: byte)
    ensures Pack(s + [b]) == Pack(s) + b * Pow256(|s|)
  {
    if s == [] {
      assert Pack([b][1..]) == 0;
    } else {
      assert (s + [b])[1..] == s[1..] + [b];
      PackSnoc(s[1..], b);
      calc {
        Pack(s + [b]);
        s[0] + 256 * (Pack(s[1..]) + b * Pow256(|s| - 1));
        Pack(s) + b * (256 * Pow256(|s| - 1));
      }
    }
  }

  /** Accumulates the bytes; each lands in its own byte of the word, so the source's `|=` adds it. */
  method PackBytes(s: seq<byte>, n: nat) returns (packed: nat)
    requires n <= |s|
    ensures packed == Pack(s[..if n < 4 then n else 4])
  {
    packed := 0;
    var i := 0;
    var weight: nat := 1;
    while i < n && i < 4
      invariant i <= n && i <= 4
      invariant packed == Pack(s[..i]) && weight == Pow256(i)
    {
      PackSnoc(s[..i], s[i]);
      assert s[..i] + [s[i]] == s[..i + 1];
      packed := packed + s[i] * weight;
      weight := 256 * weight;
      i := i + 1;
    }
  }

  /** The boundary before `end`: the nearest earlier byte that is not a tail. */
  method Previous(s: seq<byte>, end: nat) returns (r: nat)
    requires end <= |s|
    ensures end == 0 ==> r == 0
    ensures end > 0 ==> r < end && (r == 0 || !IsTail(s[r])) && forall k :: r < k < end ==> IsTail(s[k])
  {
    if end == 0 { return 0; }
    r := end - 1;
    while r != 0 && s[r] / 64 == 2
      invariant r < end
      invariant forall k :: r < k < end ==> IsTail(s[k])
    {
      r := r - 1;
    }
  }

  /** On valid text the search lands exactly on the preceding scalar boundary. */
  lemma PreviousIsBoundary(cs: seq<int>, c: int, s: seq<byte>, r: nat)
    requires AllScalars(cs) && IsScalar(c) && EncodeAll(cs) + Encode(c) <= s
    requires var end := |EncodeAll(cs)| + |Encode(c)|;
             r < end && (r == 0 || !IsTail(s[r])) && forall k :: r < k < end ==> IsTail(s[k])
    ensures r == |EncodeAll(cs)|
  {
    EncodeShape(c);
    var i := |EncodeAll(cs)|;
    assert forall k :: i <= k < i + |Encode(c)| ==> s[k] == (EncodeAll(cs) + Encode(c))[k] == Encode(c)[k - i];
    assert s[i] == Encode(c)[0];
  }

  /** Copies whole scalars while they and a terminator fit; stops at the NUL or at a malformed byte. */
  method CopyLabel(out: array<byte>, text: seq<byte>) returns (ghost cs: seq<int>, used: nat)
    requires out.Length > 0 && 0 in text
    modifies out
    ensures AllScalars(cs) && used == |EncodeAll(cs)| < out.Length && EncodeAll(cs) <= text
    ensures out[..used] == EncodeAll(cs) && out[used] == 0
    ensures used < |text|
    ensures (text[used] == 0 || ScalarLen(text[used..]) == 0 || used + ScalarLen(text[used..]) >= out.Length)
  {
    hide Encode;
    hide ScalarLen;
    hide IsScalar;
    used, cs := 0, [];
    while text[used] != 0
      invariant AllScalars(cs) && used == |EncodeAll(cs)| < out.Length && used < |text|
      invariant EncodeAll(cs) == text[..used] == out[..used]
      decreases |text| - used
    {
      TerminatorAhead(text, used, cs);
      var length := ScalarBytes(text, used, 4);
      ScalarLenLocal(text[used..]);
      assert text[used..][..if |text| - used < 4 then |text| - used else 4]
           == text[used..if used + 4 <= |text| then used + 4 else |text|];
      if length == 0 || used + length >= out.Length { break; }
      cs := DecodedOne(text, used, cs);
      NoNulInside(text, used, length);
      forall k | 0 <= k < length { out[used + k] := text[used + k]; }
      used := used + length;
      assert out[..used] == text[..used];
    }
    out[used] := 0;
  }

  lemma TerminatorAhead(text: seq<byte>, used: nat, cs: seq<int>)
    requires 0 in text && used <= |text| && AllScalars(cs) && EncodeAll(cs) == text[..used]
    ensures 0 in text[used..]
  {
    var z :| 0 <= z < |text| && text[z] == 0;
    EncodeAllNonzero(cs);
    assert forall k :: 0 <= k < used ==> text[k] == EncodeAll(cs)[k];
    assert text[used..][z - used] == 0;
  }

  /** Four bytes decide the scalar length. */
  lemma ScalarLenLocal(s: seq<byte>)
    ensures ScalarLen(s[..if |s| < 4 then |s| else 4]) == ScalarLen(s)
  {}

  /** Text with a terminator still has it after a whole scalar. */
  lemma NoNulInside(text: seq<byte>, used: nat, length: nat)
    requires used <= |text| && 0 in text[used..] && length == ScalarLen(text[used..]) > 0
    ensures used + length < |text|
  {}

  /** On valid text the copied label is the longest prefix of whole scalars that fits with its terminator. */
  lemma LabelIsLongest(cs: seq<int>, ds: seq<int>, text: seq<byte>, capacity: nat)
    requires AllScalars(ds) && EncodeAll(ds) + [0] <= text
    requires AllScalars(cs) && EncodeAll(cs) <= text && |EncodeAll(cs)| < |text|
    requires var used := |EncodeAll(cs)|;
             used < capacity
             && (text[used] == 0 || ScalarLen(text[used..]) == 0 || used + ScalarLen(text[used..]) >= capacity)
    ensures cs <= ds
    ensures cs < ds ==> |EncodeAll(cs)| + |Encode(ds[|cs|])| >= capacity
    ensures forall k :: |cs| < k <= |ds| ==> |EncodeAll(ds[..k])| >= capacity
  {
    DecodingUnique(cs, ds, text);
    NextScalar(cs, ds, text);
    forall k | |cs| < k <= |ds| ensures |EncodeAll(ds[..k])| >= capacity { LongerPrefix(cs, ds, k); }
  }

  lemma LongerPrefix(cs: seq<int>, ds: seq<int>, k: nat)
    requires AllScalars(ds) && cs <= ds && |cs| < k <= |ds|
    ensures |EncodeAll(ds[..k])| >= |EncodeAll(cs)| + |Encode(ds[|cs|])|
  {
    var rest := ds[|cs|..k];
    assert ds[..k] == cs + rest;
    EncodeAllAppend(cs, rest);
  }
}
