/**
  Printing and parsing numbers: the formatted integer writer and the string-to-integer
  parser of the kernel library, and the round trip between them. Text is a sequence of
  nonzero character codes; reading at its end gives the terminating zero.
 */
module Numbers {
  import opened Common

  const HALF := 0x8000_0000_0000_0000   // 2^63

  type code = byte   // a character code
  type Text = s: seq<code> | 0 !in s

  const SPACE: code := 32
  const PLUS: code := 43
  const MINUS: code := 45
  const ZERO: code := 48
  const UPPER_X: code := 88
  const LOWER_X: code := 120

  // ------------------------------------------------------------------- digits

  predicate IsSpace(c: code) { c in {32, 9, 10, 13, 12, 11} }

  /** The value of a digit or letter, or -1. */
  function DigitOf(c: code): (d: int)
    ensures -1 <= d < 36
  {
    if 48 <= c <= 57 then c - 48
    else if 65 <= c <= 90 then c - 65 + 10
    else if 97 <= c <= 122 then c - 97 + 10
    else -1
  }

  function DigitChar(d: nat, small: bool): (c: code)
    requires d < 36
    ensures DigitOf(c) == d && c != 0 && !IsSpace(c) && c != PLUS && c != MINUS
    ensures d < 16 ==> c != UPPER_X && c != LOWER_X
    ensures d == 0 ==> c == ZERO
  {
    if d < 10 then 48 + d else if small then 87 + d else 55 + d
  }

  predicate IsDigit(c: code, base: nat) { 0 <= DigitOf(c) < base }

  predicate AllDigits(s: seq<code>, base: nat) { forall i | 0 <= i < |s| :: IsDigit(s[i], base) }

  /** One more digit at the end of a number. */
  function Append(v: nat, base: nat, d: nat): nat { v * base + d }

  /** The mathematical value of a digit string. */
  function Value(s: seq<code>, base: nat): nat
    requires AllDigits(s, base)
  {
    if s == [] then 0 else assert IsDigit(s[|s|-1], base); Append(Value(s[..|s|-1], base), base, DigitOf(s[|s|-1]))
  }

  // ------------------------------------------------------------------ parsing

  function At(s: Text, i: nat): code { if i < |s| then s[i] else 0 }

  /** The first position from i on that is not white space. */
  function SkipSpace(s: Text, i: nat): (r: nat)
    requires i <= |s|
    ensures i <= r <= |s| && !IsSpace(At(s, r)) && forall k | i <= k < r :: IsSpace(s[k])
    decreases |s| - i
  {
    if i < |s| && IsSpace(s[i]) then SkipSpace(s, i + 1) else i
  }

  /** The first position from i on that holds no digit of the base. */
  function SkipDigits(s: Text, i: nat, base: nat): (r: nat)
    requires i <= |s|
    ensures i <= r <= |s| && !(r < |s| && IsDigit(s[r], base)) && forall k | i <= k < r :: IsDigit(s[k], base)
    decreases |s| - i
  {
    if i < |s| && IsDigit(s[i], base) then SkipDigits(s, i + 1, base) else i
  }

  function SkipSign(s: Text, i: nat): nat { if At(s, i) == PLUS || At(s, i) == MINUS then i + 1 else i }

  predicate HexPrefix(s: Text, i: nat, base: nat) {
    && (base == 0 || base == 16) && At(s, i) == ZERO && (At(s, i + 1) == LOWER_X || At(s, i + 1) == UPPER_X)
    && IsDigit(At(s, i + 2), 16)
  }

  function Base(s: Text, i: nat, base: nat): nat {
    if HexPrefix(s, i, base) then 16 else if base == 0 then (if At(s, i) == ZERO then 8 else 10) else base
  }

  /** Clamping to the signed 64-bit range. */
  function Clamp(v: int): int { if v >= HALF then HALF - 1 else if v < -HALF then -HALF else v }

  /** What parsing means: the value and the position after the number, (0, 0) when there is none. */
  function Parse(s: Text, base: int): (int, nat) {
    var a := SkipSpace(s, 0);
    var b := SkipSign(s, a);
    if base != 0 && (base < 2 || base > 36) then (0, 0)
    else
      var c := if HexPrefix(s, b, base) then b + 2 else b;
      var e := SkipDigits(s, c, Base(s, b, base));
      if e == c then (0, 0)
      else
        var v := Value(s[c..e], Base(s, b, base));
        (Clamp(if At(s, a) == MINUS then 0 - v else v), e)
  }

  /** Reads digits while they fit below the limit; once one does not, the number is too big. */
  method ReadDigits(s: Text, start: nat, base: nat, limit: nat) returns (value: nat, overflow: bool, end: nat)
    requires start <= |s| && 2 <= base <= 36 && limit >= 36
    ensures end == SkipDigits(s, start, base)
    ensures var v := Value(s[start..end], base); (overflow <==> v > limit) && (!overflow ==> value == v)
  {
    hide Value;
    hide AllDigits;
    hide Append;
    value, overflow, end := 0, false, start;
    Nothing(s, start, base);
    while end < |s|
      invariant start <= end <= |s| && SkipDigits(s, end, base) == SkipDigits(s, start, base)
      invariant AllDigits(s[start..end], base) && value <= limit
      invariant overflow <==> Value(s[start..end], base) > limit
      invariant !overflow ==> value == Value(s[start..end], base)
    {
      var digit := DigitOf(s[end]);
      if digit < 0 || digit >= base { return; }
      ghost var v := Value(s[start..end], base);
      ValueStep(s, start, end, base);
      Fits(value, digit, base, limit);
      if overflow { Grows(v, digit, base, limit); }
      if value > (limit - digit) / base { overflow := true; } else { value := Append(value, base, digit); }
      end := end + 1;
    }
  }

  lemma Nothing(s: Text, start: nat, base: nat)
    requires start <= |s|
    ensures AllDigits(s[start..start], base) && Value(s[start..start], base) == 0
  {}

  lemma ValueStep(s: Text, start: nat, end: nat, base: nat)
    requires start <= end < |s| && AllDigits(s[start..end], base) && IsDigit(s[end], base)
    ensures AllDigits(s[start..end + 1], base)
    ensures Value(s[start..end + 1], base) == Append(Value(s[start..end], base), base, DigitOf(s[end]))
  {
    assert s[start..end + 1] == s[start..end] + [s[end]];
  }

  /** The overflow test asks exactly whether the next value fits. */
  lemma Fits(value: nat, digit: nat, base: nat, limit: nat)
    requires base > 0 && digit <= limit
    ensures value > (limit - digit) / base <==> Append(value, base, digit) > limit
  {
    var q := (limit - digit) / base;
    assert limit - digit == q * base + (limit - digit) % base;
    if value > q { Times(q + 1, value, base); } else { Times(value, q, base); }
  }

  lemma Grows(v: nat, digit: nat, base: nat, limit: nat)
    requires base >= 1 && v > limit
    ensures Append(v, base, digit) > limit
  {}

  /** Skips a hexadecimal prefix that is followed by a digit, and settles the base. */
  method ReadBase(s: Text, at: nat, base: nat) returns (cursor: nat, radix: nat)
    requires at <= |s| && (base == 0 || 2 <= base <= 36)
    ensures radix == Base(s, at, base) && 2 <= radix <= 36
    ensures cursor == (if HexPrefix(s, at, base) then at + 2 else at) && cursor <= |s|
  {
    cursor, radix := at, base;
    if (base == 0 || base == 16) && At(s, cursor) == ZERO
       && (At(s, cursor + 1) == LOWER_X || At(s, cursor + 1) == UPPER_X) {
      var hex := At(s, cursor + 2);
      if 48 <= hex <= 57 || 65 <= hex <= 70 || 97 <= hex <= 102 {
        cursor := cursor + 2;
        radix := 16;
      }
    }
    if radix == 0 { radix := if At(s, cursor) == ZERO then 8 else 10; }
  }

  /** The parser: white space, sign, optional hexadecimal prefix, digits, clamping. */
  method StrToL(s: Text, base: int) returns (r: int, end: nat)
    ensures (r, end) == Parse(s, base)
  {
    hide Value;
    hide AllDigits;
    hide Base;
    hide HexPrefix;
    hide SkipDigits;
    var cursor := 0;
    while cursor < |s| && IsSpace(s[cursor])
      invariant 0 <= cursor <= |s| && SkipSpace(s, cursor) == SkipSpace(s, 0)
    {
      cursor := cursor + 1;
    }
    var negative := false;
    if At(s, cursor) == MINUS || At(s, cursor) == PLUS {
      negative := At(s, cursor) == MINUS;
      cursor := cursor + 1;
    }
    if base != 0 && (base < 2 || base > 36) { return 0, 0; }
    var start, radix := ReadBase(s, cursor, base);
    var limit := if negative then HALF else HALF - 1;
    var value, overflow, after := ReadDigits(s, start, radix, limit);
    if after == start { return 0, 0; }
    end := after;
    if overflow {
      r := if negative then -HALF else HALF - 1;
    } else if !negative {
      r := value;
    } else if value == HALF {
      r := -HALF;
    } else {
      var magnitude: int := value;
      r := -magnitude;
    }
  }

  // ----------------------------------------------------------------- printing

  datatype Flags = Flags(zeropad: bool, sign: bool, plus: bool, space: bool, left: bool, special: bool, small: bool)

  function Quot(v: nat, base: nat): (q: nat)
    requires base >= 2
    ensures (v < base ==> q == 0) && (v >= base ==> 0 < q < v) && 2 * q <= v
  {
    Quotient(v, base);
    v / base
  }

  function Rem(v: nat, base: nat): (r: nat)
    requires base >= 2
    ensures r < base && (v < base ==> r == v)
  {
    Quotient(v, base);
    v % base
  }

  lemma Quotient(v: nat, base: nat)
    requires base >= 2
    ensures 2 * (v / base) <= v && (v < base ==> v / base == 0 && v % base == v) && (v >= base ==> 0 < v / base < v)
  {
    var q := v / base;
    assert v == base * q + v % base;
    Times(2, base, q);
    if q > 0 { Times(1, q, base); }
  }

  lemma DivMod(v: nat, base: nat)
    requires base >= 2
    ensures Append(Quot(v, base), base, Rem(v, base)) == v
  {}

  /** The digits of a number, most significant first, without leading zeros. */
  function Digits(v: nat, base: nat, small: bool): (s: seq<code>)
    requires 2 <= base <= 36
    ensures |s| > 0 && AllDigits(s, base)
  {
    if v < base then [DigitChar(v, small)] else Digits(Quot(v, base), base, small) + [DigitChar(Rem(v, base), small)]
  }

  /** Printing digits is the inverse of reading their value. */
  lemma {:induction false} DigitsValue(v: nat, base: nat, small: bool)
    requires 2 <= base <= 36
    ensures Value(Digits(v, base, small), base) == v
  {
    hide Append;
    hide Value;
    hide AllDigits;
    hide Quot;
    hide Rem;
    if v < base {
      ValueSnoc([], DigitChar(v, small), base);
      First(v, base);
    } else {
      DigitsValue(Quot(v, base), base, small);
      ValueSnoc(Digits(Quot(v, base), base, small), DigitChar(Rem(v, base), small), base);
      DivMod(v, base);
    }
  }

  lemma ValueSnoc(s: seq<code>, c: code, base: nat)
    requires IsDigit(c, base) && (s == [] || AllDigits(s, base))
    ensures AllDigits(s, base) && AllDigits(s + [c], base)
    ensures Value(s + [c], base) == Append(Value(s, base), base, DigitOf(c)) && Value([], base) == 0 && [] + [c] == [c]
  {}

  lemma First(d: nat, base: nat)
    ensures Append(0, base, d) == d
  {}

  /** A positive number starts with a nonzero digit. */
  lemma {:induction false} NoLeadingZero(v: nat, base: nat, small: bool)
    requires 2 <= base <= 36
    ensures v > 0 ==> Digits(v, base, small)[0] != ZERO
  {
    hide Quot;
    hide Rem;
    if v >= base { NoLeadingZero(Quot(v, base), base, small); }
  }

  function Repeat(c: code, n: nat): (s: seq<code>)
    ensures |s| == n && forall i | 0 <= i < n :: s[i] == c
  {
    seq(n, _ => c)
  }

  function Negative(num: nat, f: Flags): bool { f.sign && num >= HALF }

  function Magnitude(num: nat, f: Flags): nat
    requires num < TOP
  {
    if Negative(num, f) then TOP - num else num
  }

  function Sign(num: nat, f: Flags): seq<code> {
    if Negative(num, f) then [MINUS] else if f.plus then [PLUS] else if f.space then [SPACE] else []
  }

  function Prefix(base: nat, f: Flags): seq<code> {
    if !f.special then [] else if base == 8 then [ZERO]
    else if base == 16 then [ZERO, if f.small then LOWER_X else UPPER_X] else []
  }

  /** Sign, prefix and at least `precision` digits. */
  function Precise(digits: nat, precision: nat): nat { if precision > digits then precision else digits }

  /** Field padding, with the content's width computed in 64 bits. */
  function Padding(size: nat, content: nat): nat { if size > content % TOP then size - content % TOP else 0 }

  /** Everything before the digits, the digits with their leading zeros, everything after. */
  datatype Layout = Layout(head: seq<code>, zeros: nat, digits: seq<code>, tail: nat)

  function Arranged(num: nat, base: nat, size: nat, precision: nat, f: Flags): Layout
    requires num < TOP && 2 <= base <= 36
  {
    var digits := Digits(Magnitude(num, f), base, f.small);
    var wide := Precise(|digits|, precision);
    var pad := Padding(size, wide + |Prefix(base, f)| + |Sign(num, f)|);
    Layout(Repeat(SPACE, if !f.left && !f.zeropad then pad else 0) + Sign(num, f) + Prefix(base, f),
           (if f.zeropad && !f.left then pad else 0) + (wide - |digits|), digits, if f.left then pad else 0)
  }

  function Written(l: Layout): seq<code> { l.head + Repeat(ZERO, l.zeros) + l.digits + Repeat(SPACE, l.tail) }

  // ------------------------------------------------------- the writer's loops

  function Reversed(s: seq<code>): (r: seq<code>)
    ensures |r| == |s|
  {
    if s == [] then [] else [s[|s|-1]] + Reversed(s[..|s|-1])
  }

  lemma {:induction false} Pow2Grows(m: nat, n: nat)
    requires m <= n
    ensures Pow2(m) <= Pow2(n)
  {
    if m < n { Pow2Grows(m, n - 1); }
  }

  lemma Pow2At64()
    ensures Pow2(64) == TOP
  {
    assert Pow2(8) == 256;
    assert Pow2(16) == 0x1_0000;
    assert Pow2(24) == 0x100_0000;
    assert Pow2(32) == 0x1_0000_0000;
    assert Pow2(40) == 0x100_0000_0000;
    assert Pow2(48) == 0x1_0000_0000_0000;
    assert Pow2(56) == 0x100_0000_0000_0000;
  }

  /** What is left of the number after n digits have been taken off. */
  ghost predicate Room(value: nat, n: nat, v: nat) { value * Pow2(n) <= v }

  /** Fewer than 64 digits have been taken off as long as something is left. */
  lemma RoomLeft(value: nat, q: nat, n: nat, v: nat)
    requires Room(value, n, v) && v < TOP && value > 0 && 2 * q <= value
    ensures n < 64 && Room(q, n + 1, v)
  {
    hide Pow2;
    Pow2At64();
    Times(1, value, Pow2(n));
    if n > 63 { Pow2Grows(64, n); }
    Times(2 * q, value, Pow2(n));
    NextPower(n);
    Regroup(q, Pow2(n));
  }

  lemma NextPower(n: nat)
    ensures Pow2(n + 1) == 2 * Pow2(n) && Pow2(0) == 1
  {}

  lemma Regroup(q: nat, p: nat)
    ensures q * (2 * p) == (2 * q) * p
  {}

  lemma RoomAtFirst(v: nat)
    ensures Room(v, 0, v) && forall n: nat :: Room(0, n, v)
  {}

  /** Collects the digits, least significant first; 64 places are always enough. */
  method CollectDigits(v: nat, base: nat, small: bool) returns (tmp: array<code>, n: nat)
    requires v < TOP && 2 <= base <= 36
    ensures tmp.Length == 65 && 0 < n <= 64 && Reversed(tmp[..n]) == Digits(v, base, small)
  {
    hide Room;
    hide Quot;
    hide Rem;
    hide DigitChar;
    tmp := new code[65];
    n := 0;
    var value: nat := v;
    RoomAtFirst(v);
    while n == 0 || value != 0
      invariant n <= 64 && Room(value, n, v) && (n == 0 ==> value == v)
      invariant n > 0 && value == 0 ==> Reversed(tmp[..n]) == Digits(v, base, small)
      invariant value != 0 ==> Digits(value, base, small) + Reversed(tmp[..n]) == Digits(v, base, small)
      decreases value, if n == 0 then 1 else 0
    {
      if value > 0 { RoomLeft(value, Quot(value, base), n, v); }
      ghost var before := tmp[..n];
      tmp[n] := DigitChar(Rem(value, base), small);
      assert tmp[..n + 1][..n] == before;
      n := n + 1;
      value := Quot(value, base);
    }
  }

  /** Writes a character n times. */
  method Fill(out: seq<code>, c: code, n: nat) returns (r: seq<code>)
    ensures r == out + Repeat(c, n)
  {
    r := out;
    var left := n;
    while left > 0
      invariant 0 <= left <= n && r == out + Repeat(c, n - left)
    {
      left := left - 1;
      r := r + [c];
    }
  }

  /** Writes the collected digits, most significant first. */
  method FillDigits(out: seq<code>, tmp: array<code>, n: nat) returns (r: seq<code>)
    requires n <= tmp.Length
    ensures r == out + Reversed(tmp[..n])
  {
    r := out;
    var count := n;
    while count > 0
      invariant 0 <= count <= n && r + Reversed(tmp[..count]) == out + Reversed(tmp[..n])
    {
      assert tmp[..count][..count - 1] == tmp[..count - 1];
      count := count - 1;
      r := r + [tmp[count]];
    }
  }

  function One(c: code): seq<code> { if c == 0 then [] else [c] }

  method WriteOne(out: seq<code>, c: code) returns (r: seq<code>)
    ensures r == out + One(c)
  {
    r := out;
    if c != 0 { r := r + [c]; }
  }

  /** The magnitude to print and the sign to print before it, zero for none. */
  method ChooseSign(num: nat, f: Flags) returns (value: nat, sign: code)
    requires num < TOP
    ensures value == Magnitude(num, f) && value < TOP && One(sign) == Sign(num, f)
  {
    value, sign := num, 0;
    if f.sign && num >= HALF {
      sign := MINUS;
      value := TOP - num;
    } else if f.plus {
      sign := PLUS;
    } else if f.space {
      sign := SPACE;
    }
  }

  method ChoosePrefix(base: nat, f: Flags) returns (prefix0: code, prefix1: code)
    ensures One(prefix0) + One(prefix1) == Prefix(base, f)
  {
    prefix0, prefix1 := 0, 0;
    if f.special {
      if base == 8 {
        prefix0 := ZERO;
      } else if base == 16 {
        prefix0, prefix1 := ZERO, if f.small then LOWER_X else UPPER_X;
      }
    }
  }

  /** Writes the field from left to right. */
  method Emit(spaces: nat, sign: code, prefix0: code, prefix1: code, zeros: nat, more: nat, tmp: array<code>,
              count: nat, tail: nat)
    returns (out: seq<code>)
    requires count <= tmp.Length
    ensures out == Repeat(SPACE, spaces) + One(sign) + One(prefix0) + One(prefix1) + Repeat(ZERO, zeros)
                   + Repeat(ZERO, more)
                   + Reversed(tmp[..count]) + Repeat(SPACE, tail)
  {
    hide One;
    hide Repeat;
    hide Reversed;
    out := Fill([], SPACE, spaces);
    assert [] + Repeat(SPACE, spaces) == Repeat(SPACE, spaces);
    out := WriteOne(out, sign);
    out := WriteOne(out, prefix0);
    out := WriteOne(out, prefix1);
    out := Fill(out, ZERO, zeros);
    out := Fill(out, ZERO, more);
    out := FillDigits(out, tmp, count);
    out := Fill(out, SPACE, tail);
  }

  /** The pieces, written one after the other, are the field. */
  lemma Assembled(spaces: nat, sign: seq<code>, p: seq<code>, q: seq<code>, zeros: nat, more: nat, digits: seq<code>,
                  tail: nat)
    ensures Repeat(SPACE, spaces) + sign + p + q + Repeat(ZERO, zeros) + Repeat(ZERO, more) + digits
            + Repeat(SPACE, tail)
         == Written(Layout(Repeat(SPACE, spaces) + sign + (p + q), zeros + more, digits, tail))
  {
    var head := Repeat(SPACE, spaces) + sign;
    assert head + p + q == head + (p + q);
    var h := head + (p + q);
    assert Repeat(ZERO, zeros + more) == Repeat(ZERO, zeros) + Repeat(ZERO, more);
    assert h + Repeat(ZERO, zeros) + Repeat(ZERO, more) == h + Repeat(ZERO, zeros + more);
  }

  /** The formatted writer: what it writes and how many characters it reports. */
  method WNumber(num: nat, base: nat, size: nat, precision: nat, f: Flags) returns (out: seq<code>, result: nat)
    requires num < TOP && size < TOP && precision < TOP
    ensures base < 2 || base > 36 ==> out == [] && result == 0
    ensures 2 <= base <= 36 ==> out == Written(Arranged(num, base, size, precision, f)) && result == |out| % TOP
  {
    hide One;
    hide Repeat;
    hide Reversed;
    hide Digits;
    hide Sign;
    hide Prefix;
    hide Magnitude;
    hide Written;
    if base < 2 || base > 36 { return [], 0; }
    var value, sign := ChooseSign(num, f);
    var prefix0, prefix1 := ChoosePrefix(base, f);
    var tmp, count := CollectDigits(value, base, f.small);
    var prefixWidth := |One(prefix0)| + |One(prefix1)|;
    var precisionWidth := if precision > count then precision else count;
    var precisionPadding := precisionWidth - count;
    var contentWidth := (precisionWidth + prefixWidth + |One(sign)|) % TOP;
    var fieldPadding := if size > contentWidth then size - contentWidth else 0;
    var zeroField := f.zeropad && !f.left;
    var spaces := if !f.left && !zeroField then fieldPadding else 0;
    var zeros := if zeroField then fieldPadding else 0;
    var tail := if f.left then fieldPadding else 0;
    out := Emit(spaces, sign, prefix0, prefix1, zeros, precisionPadding, tmp, count, tail);
    Assembled(spaces, One(sign), One(prefix0), One(prefix1), zeros, precisionPadding, Reversed(tmp[..count]), tail);
    result := |out| % TOP;
  }

  // --------------------------------------------------------------- round trip

  lemma {:induction false} SpaceRun(s: Text, i: nat, n: nat)
    requires i <= n <= |s| && (forall k | i <= k < n :: IsSpace(s[k])) && !IsSpace(At(s, n))
    ensures SkipSpace(s, i) == n
    decreases n - i
  {}

  lemma {:induction false} DigitRun(s: Text, i: nat, n: nat, base: nat)
    requires i <= n <= |s| && (forall k | i <= k < n :: IsDigit(s[k], base)) && !(n < |s| && IsDigit(s[n], base))
    ensures SkipDigits(s, i, base) == n
    decreases n - i
  {}

  /** Leading zeros do not change a value. */
  lemma {:induction false} ZerosValue(n: nat, s: seq<code>, base: nat)
    requires base > 0 && AllDigits(s, base)
    ensures AllDigits(Repeat(ZERO, n) + s, base) && Value(Repeat(ZERO, n) + s, base) == Value(s, base)
    decreases |s|, n
  {
    var t := Repeat(ZERO, n) + s;
    assert AllDigits(t, base);
    if s != [] {
      ZerosValue(n, s[..|s|-1], base);
      assert t[..|t|-1] == Repeat(ZERO, n) + s[..|s|-1];
    } else if n > 0 {
      ZerosValue(n - 1, [], base);
      assert t[..|t|-1] == Repeat(ZERO, n - 1) + [];
    }
  }

  /** A field of spaces, a sign, a prefix, digits and spaces. */
  function Field(lead: nat, sign: seq<code>, prefix: seq<code>, number: seq<code>, tail: nat): seq<code> {
    Repeat(SPACE, lead) + sign + prefix + number + Repeat(SPACE, tail)
  }

  ghost predicate Plain(sign: seq<code>, prefix: seq<code>, number: seq<code>, base: nat) {
    && 2 <= base <= 36 && (sign == [] || sign == [PLUS] || sign == [MINUS])
    && (prefix == [] || (base == 16 && (prefix == [ZERO, LOWER_X] || prefix == [ZERO, UPPER_X])))
    && number != [] && AllDigits(number, base)
  }

  /** Where the pieces of a field lie. */
  lemma FieldAt(lead: nat, sign: seq<code>, prefix: seq<code>, number: seq<code>, tail: nat, base: nat)
    requires Plain(sign, prefix, number, base)
    ensures var s := Field(lead, sign, prefix, number, tail);
            var b := lead + |sign|;
            var c := b + |prefix|;
            var e := c + |number|;
            && 0 !in s && |s| == e + tail
            && (forall k | 0 <= k < lead :: s[k] == SPACE) && (sign != [] ==> s[lead] == sign[0])
            && (prefix != [] ==> s[b] == prefix[0] && s[b + 1] == prefix[1])
            && s[c..e] == number && (forall k | c <= k < e :: s[k] == number[k - c] && IsDigit(s[k], base))
            && (forall k | e <= k < |s| :: s[k] == SPACE)
  {
    var s := Field(lead, sign, prefix, number, tail);
    var c := lead + |sign| + |prefix|;
    assert s[c..c + |number|] == number;
    forall k | c <= k < c + |number| ensures s[k] == number[k - c] && IsDigit(s[k], base) {
      assert IsDigit(number[k - c], base);
    }
  }

  /** Parsing a field reads its number and stops behind it. */
  lemma ParseField(lead: nat, sign: seq<code>, prefix: seq<code>, number: seq<code>, tail: nat, base: nat)
    requires Plain(sign, prefix, number, base)
    ensures 0 !in Field(lead, sign, prefix, number, tail)
    ensures Parse(Field(lead, sign, prefix, number, tail), base)
         == (Clamp(if sign == [MINUS] then 0 - Value(number, base) else Value(number, base)),
             lead + |sign| + |prefix| + |number|)
  {
    hide Value;
    hide Field;
    hide HexPrefix;
    hide SkipSpace;
    hide SkipDigits;
    FieldAt(lead, sign, prefix, number, tail, base);
    var s: Text := Field(lead, sign, prefix, number, tail);
    var b := lead + |sign|;
    var c := b + |prefix|;
    var e := c + |number|;
    assert IsDigit(s[c], base);
    SpaceRun(s, 0, lead);
    DigitRun(s, c, e, base);
    assert SkipSign(s, lead) == b;
    PrefixSeen(s, b, prefix, |number|, base);
  }

  /** The parser sees a prefix exactly where one was written. */
  lemma PrefixSeen(s: Text, b: nat, prefix: seq<code>, n: nat, base: nat)
    requires 2 <= base <= 36 && n > 0 && b + |prefix| + n <= |s|
    requires prefix == [] || (&& base == 16 && (prefix == [ZERO, LOWER_X] || prefix == [ZERO, UPPER_X])
                              && s[b] == prefix[0] && s[b + 1] == prefix[1])
    requires forall k | b + |prefix| <= k < b + |prefix| + n :: IsDigit(s[k], base)
    requires forall k | b + |prefix| + n <= k < |s| :: s[k] == SPACE
    ensures HexPrefix(s, b, base) <==> prefix != []
  {
    var c := b + |prefix|;
    assert IsDigit(s[c], base);
    if prefix == [] && base == 16 && n > 1 { assert IsDigit(s[b + 1], 16); }
  }

  /** What was printed, as a field. */
  lemma PrintedIsField(num: nat, base: nat, size: nat, precision: nat, f: Flags)
    returns (lead: nat, sign: seq<code>, prefix: seq<code>, number: seq<code>, tail: nat)
    requires num < TOP && 2 <= base <= 36
    ensures Plain(sign, prefix, number, base) && (sign == [MINUS] <==> Negative(num, f))
    ensures Value(number, base) == Magnitude(num, f) && tail == Arranged(num, base, size, precision, f).tail
    ensures Written(Arranged(num, base, size, precision, f)) == Field(lead, sign, prefix, number, tail)
  {
    hide Digits;
    hide Value;
    hide AllDigits;
    hide Padding;
    hide Precise;
    hide Magnitude;
    var l := Arranged(num, base, size, precision, f);
    var wide := Precise(|l.digits|, precision);
    var pad := Padding(size, wide + |Prefix(base, f)| + |Sign(num, f)|);
    var spaces := if !f.left && !f.zeropad then pad else 0;
    sign := if Sign(num, f) == [SPACE] then [] else Sign(num, f);
    lead := if Sign(num, f) == [SPACE] then spaces + 1 else spaces;
    prefix := if base == 16 then Prefix(base, f) else [];
    var zeros := l.zeros + if base == 16 then 0 else |Prefix(base, f)|;
    number := Repeat(ZERO, zeros) + l.digits;
    tail := l.tail;
    DigitsValue(Magnitude(num, f), base, f.small);
    ZerosValue(zeros, l.digits, base);
    assert Repeat(SPACE, lead) + sign == Repeat(SPACE, spaces) + Sign(num, f);
    assert prefix + Repeat(ZERO, zeros) == Prefix(base, f) + Repeat(ZERO, l.zeros);
    Regrouped(Repeat(SPACE, lead) + sign, prefix, Repeat(ZERO, zeros), Prefix(base, f), Repeat(ZERO, l.zeros),
              l.digits);
  }

  lemma Regrouped(head: seq<code>, p: seq<code>, z: seq<code>, q: seq<code>, y: seq<code>, d: seq<code>)
    requires p + z == q + y
    ensures head + p + (z + d) == head + q + y + d
  {
    assert head + p + (z + d) == head + (p + z) + d;
  }

  function Signed(num: nat): int { if num >= HALF then num - TOP else num }

  /** Parsing what was printed gives the number back, clamped, for every base, width, precision and flags. */
  lemma PrintThenParse(num: nat, base: nat, size: nat, precision: nat, f: Flags)
    requires num < TOP && 2 <= base <= 36
    ensures 0 !in Written(Arranged(num, base, size, precision, f))
    ensures var l := Arranged(num, base, size, precision, f);
            Parse(Written(l), base) == (Clamp(if Negative(num, f) then num - TOP else num), |Written(l)| - l.tail)
  {
    hide Field;
    hide Parse;
    hide Written;
    hide Arranged;
    var lead, sign, prefix, number, tail := PrintedIsField(num, base, size, precision, f);
    ParseField(lead, sign, prefix, number, tail, base);
    FieldLength(lead, sign, prefix, number, tail);
  }

  lemma FieldLength(lead: nat, sign: seq<code>, prefix: seq<code>, number: seq<code>, tail: nat)
    ensures |Field(lead, sign, prefix, number, tail)| == lead + |sign| + |prefix| + |number| + tail
  {}

  /** The signed value comes back exactly when it was printed as signed or has no sign bit. */
  lemma RoundTripIff(num: nat, base: nat, size: nat, precision: nat, f: Flags)
    requires num < TOP && 2 <= base <= 36
    ensures 0 !in Written(Arranged(num, base, size, precision, f))
    ensures Parse(Written(Arranged(num, base, size, precision, f)), base).0 == Signed(num) <==> f.sign || num < HALF
  {
    PrintThenParse(num, base, size, precision, f);
  }

  /** Printed without a sign, 2^63 comes back as the largest signed value. */
  lemma UnsignedIsClamped(size: nat, precision: nat, f: Flags)
    requires !f.sign
    ensures 0 !in Written(Arranged(HALF, 10, size, precision, f))
    ensures Parse(Written(Arranged(HALF, 10, size, precision, f)), 10).0 == HALF - 1
  {
    PrintThenParse(HALF, 10, size, precision, f);
  }

  /** Digits with their leading zeros, prefix and sign: what the field holds besides padding. */
  function ContentWidth(num: nat, base: nat, precision: nat, f: Flags): nat
    requires num < TOP && 2 <= base <= 36
  {
    Precise(|Digits(Magnitude(num, f), base, f.small)|, precision) + |Prefix(base, f)| + |Sign(num, f)|
  }

  /**
    The writer fills the requested width exactly, or more if the content needs it. A content of
    2^64 places or more is measured modulo 2^64, and is then padded as if the width were 2^64 more.
   */
  lemma WidthIsMaximum(num: nat, base: nat, size: nat, precision: nat, f: Flags)
    requires num < TOP && 2 <= base <= 36 && precision < TOP
    ensures var content := ContentWidth(num, base, precision, f);
            var asked := if content < TOP then size else size + TOP;
            |Written(Arranged(num, base, size, precision, f))| == if asked > content then asked else content
  {
    hide Pow2;
    hide Digits;
    hide Sign;
    hide Prefix;
    hide Repeat;
    hide Written;
    var l := Arranged(num, base, size, precision, f);
    WrittenLength(l);
    ContentModulo(num, base, precision, f);
  }

  lemma ContentModulo(num: nat, base: nat, precision: nat, f: Flags)
    requires num < TOP && 2 <= base <= 36 && precision < TOP
    ensures var content := ContentWidth(num, base, precision, f);
            content % TOP == if content < TOP then content else content - TOP
  {
    hide Pow2;
    hide Digits;
    hide Sign;
    hide Prefix;
    Pow2At64();
    DigitsShort(Magnitude(num, f), base, f.small, 64);
    PiecesShort(num, base, f);
    var content := ContentWidth(num, base, precision, f);
    if content < TOP { SmallModulo(content, TOP); } else { Remainder(content, TOP, 1, content - TOP); }
  }

  lemma PiecesShort(num: nat, base: nat, f: Flags)
    ensures |Prefix(base, f)| <= 2 && |Sign(num, f)| <= 1
  {}

  lemma WrittenLength(l: Layout)
    ensures |Written(l)| == |l.head| + l.zeros + |l.digits| + l.tail
  {}

  lemma {:induction false} DigitsShort(v: nat, base: nat, small: bool, n: nat)
    requires 2 <= base <= 36 && v < Pow2(n) && n > 0
    ensures |Digits(v, base, small)| <= n
    decreases n
  {
    hide Quot;
    hide Rem;
    if v >= base { DigitsShort(Quot(v, base), base, small, n - 1); }
  }

  // ------------------------------------------------- where things stand in a field

  function SignText(num: nat, f: Flags): seq<code> {
    if f.sign && num >= 0x8000_0000_0000_0000 then [45] else if f.plus then [43] else if f.space then [32] else []
  }

  function PrefixText(base: nat, f: Flags): seq<code> {
    if f.special && base == 8 then [48]
    else if f.special && base == 16 then [48, if f.small then 120 else 88] else []
  }

  /** What a number is printed as before any padding to the field's width, with `more` extra leading zeros. */
  function Core(num: nat, base: nat, precision: nat, f: Flags, more: nat): seq<code>
    requires num < TOP && 2 <= base <= 36
  {
    var magnitude := if f.sign && num >= 0x8000_0000_0000_0000 then 0x1_0000_0000_0000_0000 - num else num;
    var digits := Digits(magnitude, base, f.small);
    var zeros := more + if precision > |digits| then precision - |digits| else 0;
    SignText(num, f) + PrefixText(base, f) + Repeat(48, zeros) + digits
  }

  lemma TextsAre(num: nat, base: nat, f: Flags)
    requires num < TOP
    ensures Sign(num, f) == SignText(num, f) && Prefix(base, f) == PrefixText(base, f)
    ensures Magnitude(num, f) == if f.sign && num >= 0x8000_0000_0000_0000 then 0x1_0000_0000_0000_0000 - num else num
  {}

  /** Padding goes behind a left-aligned number, and otherwise in front: zeros behind sign and prefix, or spaces. */
  lemma PaddingStands(num: nat, base: nat, size: nat, precision: nat, f: Flags)
    requires num < TOP && 2 <= base <= 36
    ensures var t := Written(Arranged(num, base, size, precision, f));
            exists pad: nat ::
              t == if f.left then Core(num, base, precision, f, 0) + Repeat(32, pad)
                   else if f.zeropad then Core(num, base, precision, f, pad)
                   else Repeat(32, pad) + Core(num, base, precision, f, 0)
  {
    hide Digits, Padding, Repeat, Sign, Prefix, Magnitude, SignText, PrefixText;
    TextsAre(num, base, f);
    NoneRepeated();
    var l := Arranged(num, base, size, precision, f);
    var pad := Padding(size, Precise(|l.digits|, precision) + |Prefix(base, f)| + |Sign(num, f)|);
    var front := if f.left || f.zeropad then 0 else pad;
    Pieces(Repeat(32, front), Sign(num, f), Prefix(base, f), Repeat(48, l.zeros), l.digits, Repeat(32, l.tail));
    var core := Core(num, base, precision, f, if f.zeropad && !f.left then pad else 0);
    assert core == Sign(num, f) + Prefix(base, f) + Repeat(48, l.zeros) + l.digits;
    var t := Written(l);
    assert t == if f.left then core + Repeat(32, pad) else if f.zeropad then core else Repeat(32, pad) + core;
  }

  lemma Pieces(a: seq<code>, b: seq<code>, c: seq<code>, z: seq<code>, d: seq<code>, e: seq<code>)
    ensures (a + b + c) + z + d + e == a + (b + c + z + d) + e
    ensures a == [] ==> (a + b + c) + z + d + e == (b + c + z + d) + e
    ensures e == [] ==> (a + b + c) + z + d + e == a + (b + c + z + d)
    ensures a == [] && e == [] ==> (a + b + c) + z + d + e == b + c + z + d
  {
    var body := b + c + z + d;
    assert (a + b + c) + z + d == a + body;
  }

  lemma NoneRepeated()
    ensures Repeat(32, 0) == []
  {}

  /** Digits above nine are letters of the case asked for. */
  lemma {:induction false} LetterCase(v: nat, base: nat, small: bool)
    requires 2 <= base <= 36
    ensures forall c <- Digits(v, base, small) ::
              48 <= c <= 57 || (small && 97 <= c <= 122) || (!small && 65 <= c <= 90)
  {
    hide Quot, Rem;
    if v >= base { LetterCase(Quot(v, base), base, small); }
  }

  lemma PrefixShifts(s: Text, t: Text, b: nat, base: nat)
    requires forall i: nat :: At(t, i + 1) == At(s, i)
    ensures HexPrefix(t, b + 1, base) <==> HexPrefix(s, b, base)
    ensures Base(t, b + 1, base) == Base(s, b, base)
  {
    assert At(t, b + 1) == At(s, b) && At(t, b + 1 + 1) == At(s, b + 1) && At(t, b + 2 + 1) == At(s, b + 2);
  }

  lemma AtShifts(c: code, s: Text)
    requires c != 0
    ensures 0 !in [c] + s && forall i: nat :: At([c] + s, i + 1) == At(s, i)
  {}

  lemma DigitsShift(c: code, s: Text, start: nat, radix: nat)
    requires c != 0 && start <= |s| && 0 !in [c] + s
    ensures SkipDigits([c] + s, start + 1, radix) == SkipDigits(s, start, radix) + 1
    ensures ([c] + s)[start + 1..SkipDigits(s, start, radix) + 1] == s[start..SkipDigits(s, start, radix)]
  {
    var t: Text, e := [c] + s, SkipDigits(s, start, radix);
    forall k | start + 1 <= k < e + 1 ensures IsDigit(t[k], radix) { assert t[k] == s[k - 1]; }
    DigitRun(t, start + 1, e + 1, radix);
  }

  /** Every white-space character in front of a number is skipped. */
  lemma LeadingSpace(c: code, s: Text, base: int)
    requires c in {9, 10, 11, 12, 13, 32}
    ensures 0 !in [c] + s
    ensures Parse([c] + s, base) == if Parse(s, base).1 == 0 then (0, 0) else (Parse(s, base).0, Parse(s, base).1 + 1)
  {
    hide Value, AllDigits, HexPrefix, Base, SkipDigits, SkipSpace, At;
    AtShifts(c, s);
    var t: Text := [c] + s;
    var a := SkipSpace(s, 0);
    SpacesShift(c, s);
    var b := SkipSign(s, a);
    SignShifts(s, t, a);
    if base == 0 || 2 <= base <= 36 {
      PrefixShifts(s, t, b, base);
      PrefixInside(s, b, base);
      DigitsShift(c, s, if HexPrefix(s, b, base) then b + 2 else b, Base(s, b, base));
    }
  }

  lemma SpacesShift(c: code, s: Text)
    requires c in {9, 10, 11, 12, 13, 32} && 0 !in [c] + s
    ensures SkipSpace([c] + s, 0) == SkipSpace(s, 0) + 1
  {
    var t: Text, a := [c] + s, SkipSpace(s, 0);
    forall k | 0 <= k < a + 1 ensures IsSpace(t[k]) { assert k > 0 ==> t[k] == s[k - 1]; }
    SpaceRun(t, 0, a + 1);
  }

  lemma SignShifts(s: Text, t: Text, a: nat)
    requires forall i: nat :: At(t, i + 1) == At(s, i)
    ensures SkipSign(t, a + 1) == SkipSign(s, a) + 1 && At(t, a + 1) == At(s, a)
    ensures a <= |s| ==> SkipSign(s, a) <= |s|
  {}

  lemma PrefixInside(s: Text, b: nat, base: nat)
    requires b <= |s|
    ensures HexPrefix(s, b, base) ==> b + 2 <= |s|
  {}

  /** With base 0 the prefix that was printed tells the base. */
  lemma AutoBase(v: nat, base: nat, f: Flags)
    requires base in {8, 10, 16} && f.special
    ensures 0 !in Prefix(base, f) + Digits(v, base, f.small)
    ensures Parse(Prefix(base, f) + Digits(v, base, f.small), 0)
            == (Clamp(v), |Prefix(base, f)| + |Digits(v, base, f.small)|)
  {
    hide Parse, Digits, Clamp;
    if base == 16 {
      AutoHex(v, f);
    } else if base == 8 {
      AutoOctal(v, f);
    } else {
      AutoDecimal(v, f);
    }
  }

  lemma AutoHex(v: nat, f: Flags)
    requires f.special
    ensures 0 !in Prefix(16, f) + Digits(v, 16, f.small)
    ensures Parse(Prefix(16, f) + Digits(v, 16, f.small), 0) == (Clamp(v), 2 + |Digits(v, 16, f.small)|)
  {
    hide Value, AllDigits, Digits, SkipSpace, SkipDigits;
    var d := Digits(v, 16, f.small);
    DigitsArePlain(v, 16, f.small);
    DigitsValue(v, 16, f.small);
    var s: Text := Prefix(16, f) + d;
    assert d[0] in d && s[2] == d[0];
    SpaceRun(s, 0, 0);
    assert HexPrefix(s, 0, 0) && s[2..|s|] == d;
    DigitRun(s, 2, |s|, 16);
  }

  lemma AutoOctal(v: nat, f: Flags)
    requires f.special
    ensures 0 !in Prefix(8, f) + Digits(v, 8, f.small)
    ensures Parse(Prefix(8, f) + Digits(v, 8, f.small), 0) == (Clamp(v), 1 + |Digits(v, 8, f.small)|)
  {
    hide Value, AllDigits, Digits, SkipSpace, SkipDigits;
    var d := Digits(v, 8, f.small);
    DigitsArePlain(v, 8, f.small);
    DigitsValue(v, 8, f.small);
    var s: Text := Prefix(8, f) + d;
    assert d[0] in d && s[1] == d[0] && s[0] == ZERO;
    SpaceRun(s, 0, 0);
    assert s == Repeat(ZERO, 1) + d && s[0..|s|] == s;
    ZerosValue(1, d, 8);
    forall k | 0 <= k < |s| ensures IsDigit(s[k], 8) { assert k > 0 ==> s[k] == d[k - 1] && d[k - 1] in d; }
    DigitRun(s, 0, |s|, 8);
    assert !HexPrefix(s, 0, 0) && Base(s, 0, 0) == 8;
  }

  lemma AutoDecimal(v: nat, f: Flags)
    ensures Prefix(10, f) == [] && 0 !in Prefix(10, f) + Digits(v, 10, f.small)
    ensures Parse(Prefix(10, f) + Digits(v, 10, f.small), 0) == (Clamp(v), |Digits(v, 10, f.small)|)
  {
    hide Value, AllDigits, Digits, SkipSpace, SkipDigits;
    var d := Digits(v, 10, f.small);
    DigitsArePlain(v, 10, f.small);
    NoLeadingZero(v, 10, f.small);
    var s: Text := Prefix(10, f) + d;
    assert s == d && d[0] in d && s[0..|s|] == s;
    SpaceRun(s, 0, 0);
    if |d| > 1 { assert d[1] in d; }
    assert !HexPrefix(s, 0, 0);
    var radix := Base(s, 0, 0);
    SmallValue(v, radix, f.small);
    forall k | 0 <= k < |s| ensures IsDigit(s[k], radix) { AllAre(d, radix, k); }
    DigitRun(s, 0, |s|, radix);
  }

  lemma AllAre(d: seq<code>, base: nat, k: nat)
    requires AllDigits(d, base) && k < |d|
    ensures IsDigit(d[k], base)
  {}

  lemma {:induction false} DigitsArePlain(v: nat, base: nat, small: bool)
    requires 2 <= base <= 36
    ensures forall c <- Digits(v, base, small) :: c != 0 && !IsSpace(c) && c != PLUS && c != MINUS && IsDigit(c, base)
    ensures base <= 16 ==> forall c <- Digits(v, base, small) :: c != LOWER_X && c != UPPER_X
  {
    hide Quot, Rem;
    if v >= base { DigitsArePlain(Quot(v, base), base, small); }
  }

  /** Zero alone reads the same in every base. */
  lemma SmallValue(v: nat, radix: nat, small: bool)
    requires radix == 10 || (radix == 8 && v == 0)
    ensures var d := Digits(v, 10, small); AllDigits(d, radix) && Value(d, radix) == v
  {
    DigitsValue(v, 10, small);
    if radix == 8 {
      assert Digits(0, 10, small) == [ZERO] == Digits(0, 8, small);
      DigitsValue(0, 8, small);
    }
  }
}
