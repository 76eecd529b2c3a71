/** Text renderings used by the result cache: the `\x`-escaped byte string
    of `byte_str`, and Python's `{:016x}` / `hex()` integer formats. Each
    rendering comes with a parser proved to invert it. */
module ByteFmt {
  import opened Wrappers

  newtype byte = x: int | 0 <= x < 256

  const HexChars: string := "0123456789abcdef"

  /** The separator `byte_str` uses by default: a backslash followed by `x`. */
  const Sep: string := "\\x"

  function HexDigit(d: nat): (c: char)
    requires d < 16
    ensures DigitValue(c) == Some(d)
  {
    HexChars[d]
  }

  /** The value of a lower-case hexadecimal digit. */
  function DigitValue(c: char): (r: Option<nat>)
    ensures r.Some? ==> r.value < 16
  {
    if '0' <= c <= '9' then Some(c as int - '0' as int)
    else if 'a' <= c <= 'f' then Some(c as int - 'a' as int + 10)
    else None
  }

  predicate IsHexString(s: string) {
    forall i :: 0 <= i < |s| ==> DigitValue(s[i]).Some?
  }

  /** `'{:02x}'.format(b)`: two lower-case hexadecimal digits. */
  function Hex2(b: byte): (s: string)
    ensures |s| == 2 && IsHexString(s)
    ensures DigitValue(s[0]).value * 16 + DigitValue(s[1]).value == b as int
  {
    [HexDigit(b as nat / 16), HexDigit(b as nat % 16)]
  }

  /** Python's `sep.join(parts)`. */
  function Join(sep: string, parts: seq<string>): string
  {
    if |parts| == 0 then ""
    else if |parts| == 1 then parts[0]
    else parts[0] + sep + Join(sep, parts[1..])
  }

  /** The whitespace Python's `str.strip()` removes (ASCII subset). */
  predicate IsSpace(c: char) {
    c == ' ' || c == '\t' || c == '\n' || c == '\r' || c as int == 11 || c as int == 12
  }

  function StripLeft(s: string): string {
    if |s| > 0 && IsSpace(s[0]) then StripLeft(s[1..]) else s
  }

  function StripRight(s: string): string {
    if |s| > 0 && IsSpace(s[|s| - 1]) then StripRight(s[..|s| - 1]) else s
  }

  /** Python's `str.strip()`. */
  function Strip(s: string): string {
    StripRight(StripLeft(s))
  }

  function HexPairs(bs: seq<byte>): (ps: seq<string>)
    ensures |ps| == |bs|
  {
    if |bs| == 0 then [] else [Hex2(bs[0])] + HexPairs(bs[1..])
  }

  /** `\xHH` for every byte, concatenated. */
  function Escaped(bs: seq<byte>): string {
    if |bs| == 0 then "" else Sep + Hex2(bs[0]) + Escaped(bs[1..])
  }

  /** `byte_str(byte_arr)` with the default separator: `\x` followed by the
      bytes' two-digit hex renderings joined by `\x`, then stripped. */
  function ByteStr(bs: seq<byte>): (s: string)
    ensures |bs| == 0 ==> s == Sep
    ensures |bs| > 0 ==> |s| == 4 * |bs|
    ensures ParseByteStr(s) == Some(bs)
  {
    var raw := Sep + Join(Sep, HexPairs(bs));
    if |bs| == 0 then
      StripPlain(raw);
      Strip(raw)
    else
      JoinIsEscaped(bs);
      EscapedLength(bs);
      StripPlain(raw);
      EscapedParses(bs);
      Strip(raw)
  }

  /** Reads a `byte_str` rendering back into bytes. */
  function ParseByteStr(s: string): Option<seq<byte>> {
    if s == Sep then Some([]) else ParseGroups(s)
  }

  function ParseGroups(s: string): Option<seq<byte>>
    decreases |s|
  {
    if |s| == 0 then Some([])
    else if |s| < 4 || s[..2] != Sep then None
    else
      match (DigitValue(s[2]), DigitValue(s[3]), ParseGroups(s[4..]))
      case (Some(h), Some(l), Some(rest)) => Some([(h * 16 + l) as byte] + rest)
      case _ => None
  }

  lemma {:induction false} JoinIsEscaped(bs: seq<byte>)
    requires |bs| > 0
    ensures Sep + Join(Sep, HexPairs(bs)) == Escaped(bs)
    decreases |bs|
  {
    if |bs| == 1 {
      assert Escaped(bs[1..]) == "";
    } else {
      JoinIsEscaped(bs[1..]);
      calc {
        Sep + Join(Sep, HexPairs(bs));
        Sep + (Hex2(bs[0]) + Sep + Join(Sep, HexPairs(bs[1..])));
        Sep + Hex2(bs[0]) + (Sep + Join(Sep, HexPairs(bs[1..])));
      }
    }
  }

  lemma {:induction false} EscapedLength(bs: seq<byte>)
    ensures |Escaped(bs)| == 4 * |bs|
    ensures |bs| > 0 ==> Escaped(bs)[0] == '\\' && DigitValue(Escaped(bs)[|Escaped(bs)| - 1]).Some?
    decreases |bs|
  {
    if |bs| > 0 {
      EscapedLength(bs[1..]);
    }
  }

  /** `strip()` leaves the renderings alone: they start with a backslash and
      end with `x` or a hex digit. */
  lemma StripPlain(s: string)
    requires |s| > 0 && !IsSpace(s[0]) && !IsSpace(s[|s| - 1])
    ensures Strip(s) == s
  {
  }

  lemma {:induction false} EscapedParses(bs: seq<byte>)
    ensures ParseGroups(Escaped(bs)) == Some(bs)
    decreases |bs|
  {
    if |bs| > 0 {
      EscapedParses(bs[1..]);
      assert Escaped(bs) == Sep + Hex2(bs[0]) + Escaped(bs[1..]);
      ParseGroupsStep(bs[0], Escaped(bs[1..]));
      assert [bs[0]] + bs[1..] == bs;
    }
  }

  /** Parsing consumes one `\xHH` group and continues with the rest. */
  lemma ParseGroupsStep(b: byte, t: string)
    ensures ParseGroups(Sep + Hex2(b) + t) ==
      match ParseGroups(t)
      case Some(rest) => Some([b] + rest)
      case None => None
  {
    var h := Hex2(b);
    var s := Sep + h + t;
    assert s[..2] == Sep;
    assert s[2] == h[0] && s[3] == h[1];
    assert s[4..] == t;
    var d := (DigitValue(h[0]).value * 16 + DigitValue(h[1]).value) as byte;
    assert d == b;
  }

  /** A value ParseHex gives each character: its digit value, or 0. */
  function DigitOrZero(c: char): nat {
    match DigitValue(c)
    case Some(d) => d
    case None => 0
  }

  /** The value of a big-endian hexadecimal digit string. */
  function ParseHex(s: string): nat {
    if |s| == 0 then 0 else ParseHex(s[..|s| - 1]) * 16 + DigitOrZero(s[|s| - 1])
  }

  /** The shortest lower-case hexadecimal rendering of `n`, as Python's
      `'{:x}'` produces it. */
  function HexDigits(n: nat): (s: string)
    ensures |s| >= 1 && IsHexString(s)
    ensures ParseHex(s) == n
    ensures n > 0 ==> s[0] != '0'
    decreases n
  {
    if n < 16 then
      assert ParseHex([HexDigit(n)]) == ParseHex([]) * 16 + n;
      [HexDigit(n)]
    else
      var s := HexDigits(n / 16) + [HexDigit(n % 16)];
      assert s[..|s| - 1] == HexDigits(n / 16);
      s
  }

  function Zeros(k: nat): (s: string)
    ensures |s| == k
    ensures forall i :: 0 <= i < k ==> s[i] == '0'
  {
    if k == 0 then "" else Zeros(k - 1) + "0"
  }

  /** Right-aligns `s` in a field of `width` characters, filling with `0`; a
      string already as wide is left alone. */
  function ZeroPad(s: string, width: nat): (r: string)
    ensures |r| == if |s| >= width then |s| else width
    ensures |s| >= width ==> r == s
    ensures IsHexString(s) ==> IsHexString(r)
  {
    if |s| >= width then s else Zeros(width - |s|) + s
  }

  lemma {:induction false} ZerosParse(k: nat, s: string)
    ensures ParseHex(Zeros(k) + s) == ParseHex(s)
    decreases |s|, k
  {
    if |s| == 0 {
      assert Zeros(k) + s == Zeros(k);
      if k > 0 {
        assert Zeros(k)[..k - 1] == Zeros(k - 1);
        ZerosParse(k - 1, "");
        assert Zeros(k - 1) + "" == Zeros(k - 1);
      }
    } else {
      var t := Zeros(k) + s;
      assert t[..|t| - 1] == Zeros(k) + s[..|s| - 1];
      ZerosParse(k, s[..|s| - 1]);
    }
  }

  function Pow(b: nat, e: nat): nat {
    if e == 0 then 1 else b * Pow(b, e - 1)
  }

  lemma {:induction false} HexDigitsBound(n: nat, k: nat)
    requires k >= 1 && n < Pow(16, k)
    ensures |HexDigits(n)| <= k
    decreases k
  {
    if n >= 16 {
      assert k >= 2;
      assert n / 16 < Pow(16, k - 1);
      HexDigitsBound(n / 16, k - 1);
    }
  }

  lemma HexDigits64(n: nat)
    ensures n < 0x1_0000_0000_0000_0000 ==> |HexDigits(n)| <= 16
  {
    if n < 0x1_0000_0000_0000_0000 {
      PowAdd(16, 2, 2);
      PowAdd(16, 4, 4);
      PowAdd(16, 8, 8);
      HexDigitsBound(n, 16);
    }
  }

  lemma {:induction false} PowAdd(b: nat, m: nat, n: nat)
    ensures Pow(b, m + n) == Pow(b, m) * Pow(b, n)
    decreases m
  {
    if m > 0 {
      PowAdd(b, m - 1, n);
      assert Pow(b, m + n) == b * Pow(b, m - 1 + n);
    }
  }

  /** The value a `{:016x}` rendering denotes, reading an optional sign. */
  function ParseSignedHex(s: string): int {
    if |s| > 0 && s[0] == '-' then -(ParseHex(s[1..]) as int) else ParseHex(s)
  }

  /** What Python's `f"{v:016x}"` may produce for `v`: a minus sign exactly
      when `v` is negative, then lower-case hexadecimal digits denoting `v`,
      the whole at least 16 characters wide, and a leading `0` only as
      padding up to that width. */
  predicate IsHex16Of(v: int, s: string) {
    && |s| >= 16
    && ParseSignedHex(s) == v
    && (s[0] == '-' <==> v < 0)
    && (v >= 0 ==> IsHexString(s) && (|s| > 16 ==> s[0] != '0'))
    && (v < 0 ==> IsHexString(s[1..]) && (|s| > 16 ==> s[1] != '0'))
  }

  /** Python's `f"{v:016x}"`: hexadecimal, zero-padded after any sign to a
      total width of at least 16. */
  function Hex16(v: int): (s: string)
    ensures IsHex16Of(v, s)
    ensures 0 <= v < 0x1_0000_0000_0000_0000 ==> |s| == 16
  {
    if v >= 0 then
      var digits := HexDigits(v);
      HexDigits64(v);
      ZerosPadParse(digits, 16);
      ZeroPad(digits, 16)
    else
      var digits := HexDigits(-v);
      ZerosPadParse(digits, 15);
      var s := "-" + ZeroPad(digits, 15);
      assert s[1..] == ZeroPad(digits, 15);
      s
  }

  /** The format leaves no choice: `Hex16` is the only string that renders
      `v` as `{:016x}` does. */
  lemma Hex16Unique(v: int, s: string)
    requires IsHex16Of(v, s)
    ensures s == Hex16(v)
  {
    var t := Hex16(v);
    if v >= 0 {
      assert s[0] != '-' && t[0] != '-';
      HexUnique(s, t, 16);
    } else {
      HexUnique(s[1..], t[1..], 15);
      assert s == [s[0]] + s[1..] && t == [t[0]] + t[1..];
    }
  }

  /** Two digit strings at least `w` wide, with a leading zero only when
      exactly `w` wide, that denote the same number are the same string. */
  lemma HexUnique(a: string, b: string, w: nat)
    requires w >= 1 && |a| >= w && |b| >= w
    requires IsHexString(a) && IsHexString(b)
    requires |a| > w ==> a[0] != '0'
    requires |b| > w ==> b[0] != '0'
    requires ParseHex(a) == ParseHex(b)
    ensures a == b
  {
    if |a| == |b| {
      ParseHexInjective(a, b);
    } else if |a| > |b| {
      LongerIsLarger(a, b);
    } else {
      LongerIsLarger(b, a);
    }
  }

  lemma LongerIsLarger(a: string, b: string)
    requires |a| > |b| && IsHexString(a) && IsHexString(b) && a[0] != '0'
    ensures ParseHex(a) > ParseHex(b)
  {
    ParseHexLower(a);
    ParseHexUpper(b);
    PowMono(16, |b|, |a| - 1);
  }

  /** Digit strings of one length that denote the same number are equal. */
  lemma {:induction false} ParseHexInjective(a: string, b: string)
    requires |a| == |b| && IsHexString(a) && IsHexString(b)
    requires ParseHex(a) == ParseHex(b)
    ensures a == b
    decreases |a|
  {
    if |a| > 0 {
      var n := |a|;
      var da, db := DigitValue(a[n - 1]).value, DigitValue(b[n - 1]).value;
      DivMod16(ParseHex(a[..n - 1]), da, ParseHex(b[..n - 1]), db);
      ParseHexInjective(a[..n - 1], b[..n - 1]);
      assert a[n - 1] == b[n - 1];
      assert a == a[..n - 1] + [a[n - 1]] && b == b[..n - 1] + [b[n - 1]];
    }
  }

  lemma DivMod16(x: nat, d: nat, y: nat, e: nat)
    requires d < 16 && e < 16 && x * 16 + d == y * 16 + e
    ensures x == y && d == e
  {
  }

  lemma {:induction false} ParseHexUpper(s: string)
    requires IsHexString(s)
    ensures ParseHex(s) < Pow(16, |s|)
    decreases |s|
  {
    if |s| > 0 {
      ParseHexUpper(s[..|s| - 1]);
      assert ParseHex(s[..|s| - 1]) + 1 <= Pow(16, |s| - 1);
      assert (ParseHex(s[..|s| - 1]) + 1) * 16 <= Pow(16, |s| - 1) * 16;
    }
  }

  lemma {:induction false} ParseHexLower(s: string)
    requires |s| >= 1 && IsHexString(s) && s[0] != '0'
    ensures ParseHex(s) >= Pow(16, |s| - 1)
    decreases |s|
  {
    if |s| == 1 {
      assert ParseHex(s) == ParseHex(s[..0]) * 16 + DigitOrZero(s[0]);
    } else {
      var init := s[..|s| - 1];
      assert init[0] == s[0];
      ParseHexLower(init);
      assert ParseHex(init) * 16 >= Pow(16, |s| - 2) * 16;
    }
  }

  lemma {:induction false} PowMono(b: nat, m: nat, n: nat)
    requires b >= 1 && m <= n
    ensures Pow(b, m) <= Pow(b, n)
    decreases n
  {
    if m < n {
      PowMono(b, m, n - 1);
      assert Pow(b, n - 1) <= b * Pow(b, n - 1);
    }
  }

  lemma ZerosPadParse(digits: string, width: nat)
    requires |digits| >= 1 && IsHexString(digits)
    ensures ParseHex(ZeroPad(digits, width)) == ParseHex(digits)
    ensures ZeroPad(digits, width)[0] != '-'
  {
    if |digits| < width {
      ZerosParse(width - |digits|, digits);
      assert ZeroPad(digits, width)[0] == Zeros(width - |digits|)[0] == '0';
    } else {
      assert DigitValue(digits[0]).Some?;
    }
  }

  /** Python's `hex(n)` for a non-negative `n`. */
  function PyHex(n: nat): (s: string)
    ensures |s| >= 3 && s[..2] == "0x" && ParseHex(s[2..]) == n
    ensures IsHexString(s[2..]) && (|s| > 3 ==> s[2] != '0')
  {
    var s := "0x" + HexDigits(n);
    assert s[2..] == HexDigits(n);
    s
  }
}
