/**
 * The PHP string built-ins the anchoring code relies on, on Dafny strings.
 *
 * A PHP string is a byte string; the model keeps text as a sequence of
 * Unicode scalar values and measures it with `ByteLength`, the length of its
 * UTF-8 encoding, which is what `strlen` reports for such text. Hex strings,
 * hashes, ids and status words are ASCII, where the two views coincide.
 */
module PhpStrings {
  import opened Wrappers

  // ---------------------------------------------------------------------
  // trim()
  // ---------------------------------------------------------------------

  /** The characters `trim()` strips by default: " \t\n\r\0\x0B". */
  predicate IsTrimChar(c: char) {
    c == ' ' || c == '\t' || c == '\n' || c == '\r' || c == '\0' || c == '\U{0B}'
  }

  predicate AllTrimChars(s: string) {
    forall i | 0 <= i < |s| :: IsTrimChar(s[i])
  }

  function TrimLeft(s: string): (r: string)
    ensures |r| <= |s| && r == s[|s| - |r|..]
    ensures AllTrimChars(s[..|s| - |r|])
    ensures r == [] || !IsTrimChar(r[0])
  {
    if s != [] && IsTrimChar(s[0]) then TrimLeft(s[1..]) else s
  }

  function TrimRight(s: string): (r: string)
    ensures |r| <= |s| && r == s[..|r|]
    ensures AllTrimChars(s[|r|..])
    ensures r == [] || !IsTrimChar(r[|r| - 1])
  {
    if s != [] && IsTrimChar(s[|s| - 1]) then TrimRight(s[..|s| - 1]) else s
  }

  /** PHP's `trim($s)` with the default character list. */
  function Trim(s: string): (r: string)
    ensures r == [] || (!IsTrimChar(r[0]) && !IsTrimChar(r[|r| - 1]))
  {
    TrimRight(TrimLeft(s))
  }

  /**
   * Trim keeps a contiguous middle part of its input and removes only
   * trim characters on either side of it.
   */
  lemma TrimIsMiddle(s: string) returns (i: nat, j: nat)
    ensures i <= j <= |s| && Trim(s) == s[i..j]
    ensures AllTrimChars(s[..i]) && AllTrimChars(s[j..])
  {
    var l := TrimLeft(s);
    i := |s| - |l|;
    j := i + |Trim(s)|;
    assert Trim(s) == l[..|Trim(s)|];
    assert l[|Trim(s)|..] == s[j..];
  }

  /** Trimming twice is trimming once. */
  lemma TrimIdempotent(s: string)
    ensures Trim(Trim(s)) == Trim(s)
  {
  }

  lemma {:induction false} TrimLeftSkipsPadding(p: string, x: string)
    requires AllTrimChars(p)
    ensures TrimLeft(p + x) == TrimLeft(x)
  {
    if p != [] {
      assert (p + x)[0] == p[0];
      assert (p + x)[1..] == p[1..] + x;
      TrimLeftSkipsPadding(p[1..], x);
    } else {
      assert p + x == x;
    }
  }

  lemma {:induction false} TrimRightSkipsPadding(x: string, q: string)
    requires AllTrimChars(q)
    ensures TrimRight(x + q) == TrimRight(x)
  {
    if q != [] {
      assert (x + q)[|x + q| - 1] == q[|q| - 1];
      assert (x + q)[..|x + q| - 1] == x + q[..|q| - 1];
      TrimRightSkipsPadding(x, q[..|q| - 1]);
    } else {
      assert x + q == x;
    }
  }

  /** A string is all padding exactly when its first character and the rest are. */
  lemma AllTrimCharsCons(s: string)
    requires s != []
    ensures AllTrimChars(s) <==> IsTrimChar(s[0]) && AllTrimChars(s[1..])
  {
    if IsTrimChar(s[0]) && AllTrimChars(s[1..]) {
      forall i | 0 <= i < |s| ensures IsTrimChar(s[i]) {
        if i > 0 { assert s[i] == s[1..][i - 1]; }
      }
    }
  }

  lemma {:induction false} TrimLeftAppend(s: string, q: string)
    ensures TrimLeft(s + q) == if AllTrimChars(s) then TrimLeft(q) else TrimLeft(s) + q
  {
    if s == [] {
      assert s + q == q;
    } else {
      AllTrimCharsCons(s);
      assert (s + q)[0] == s[0];
      if IsTrimChar(s[0]) {
        assert (s + q)[1..] == s[1..] + q;
        TrimLeftAppend(s[1..], q);
      }
    }
  }

  /** What `ltrim` leaves of padded text: nothing if the text is blank, else the text's own left-trimmed form and the right padding. */
  lemma PaddedTrimLeft(p: string, s: string, q: string)
    requires AllTrimChars(p) && AllTrimChars(q)
    ensures TrimLeft(p + s + q) == if AllTrimChars(s) then [] else TrimLeft(s) + q
    ensures AllTrimChars(s) ==> TrimLeft(s) == []
  {
    assert p + s + q == p + (s + q);
    TrimLeftSkipsPadding(p, s + q);
    TrimLeftAppend(s, q);
    if AllTrimChars(s) {
      TrimLeftOfPadding(q);
      TrimLeftOfPadding(s);
    }
  }

  /** Left-trimming nothing but padding leaves nothing. */
  lemma TrimLeftOfPadding(s: string)
    requires AllTrimChars(s)
    ensures TrimLeft(s) == []
  {
    TrimLeftSkipsPadding(s, []);
    assert s + [] == s;
  }

  /**
   * Surrounding whitespace does not matter: text padded on either side with
   * trim characters trims to the same string as the text itself.
   */
  lemma TrimAbsorbsPadding(p: string, s: string, q: string)
    requires AllTrimChars(p) && AllTrimChars(q)
    ensures Trim(p + s + q) == Trim(s)
  {
    PaddedTrimLeft(p, s, q);
    if !AllTrimChars(s) {
      TrimRightSkipsPadding(TrimLeft(s), q);
    }
  }

  // ---------------------------------------------------------------------
  // strlen() on UTF-8 text
  // ---------------------------------------------------------------------

  /** Number of bytes UTF-8 uses for one scalar value. */
  function Utf8Width(c: char): nat {
    if c as int < 0x80 then 1
    else if c as int < 0x800 then 2
    else if c as int < 0x1_0000 then 3
    else 4
  }

  /** `strlen` of the UTF-8 encoding of `s`: bytes, not characters. */
  function ByteLength(s: string): (n: nat)
    ensures |s| <= n <= 4 * |s|
  {
    if s == [] then 0 else Utf8Width(s[0]) + ByteLength(s[1..])
  }

  predicate IsAscii(s: string) {
    forall i | 0 <= i < |s| :: s[i] as int < 0x80
  }

  /** On ASCII text bytes and characters agree. */
  lemma {:induction false} AsciiByteLength(s: string)
    requires IsAscii(s)
    ensures ByteLength(s) == |s|
  {
    if s != [] {
      assert s[0] as int < 0x80;
      AsciiByteLength(s[1..]);
    }
  }

  /** A character outside ASCII makes the byte length exceed the character count. */
  lemma {:induction false} NonAsciiByteLength(s: string, k: nat)
    requires k < |s| && s[k] as int >= 0x80
    ensures ByteLength(s) > |s|
  {
    if k > 0 {
      NonAsciiByteLength(s[1..], k - 1);
    } else {
      assert ByteLength(s[1..]) >= |s[1..]|;
    }
  }

  // ---------------------------------------------------------------------
  // Hex digits, bin2hex(), hexdec(), dechex(), ctype_xdigit()
  // ---------------------------------------------------------------------

  /** A character `ctype_xdigit` accepts. */
  predicate IsHexDigit(c: char) {
    '0' <= c <= '9' || 'a' <= c <= 'f' || 'A' <= c <= 'F'
  }

  predicate IsLowerHexDigit(c: char) {
    '0' <= c <= '9' || 'a' <= c <= 'f'
  }

  /** `ctype_xdigit($s)`: non-empty and hex digits only. */
  predicate IsXDigitString(s: string) {
    s != [] && forall i | 0 <= i < |s| :: IsHexDigit(s[i])
  }

  predicate IsLowerHex(s: string) {
    forall i | 0 <= i < |s| :: IsLowerHexDigit(s[i])
  }

  function HexValue(c: char): (v: nat)
    requires IsHexDigit(c)
    ensures v < 16
  {
    if '0' <= c <= '9' then c as int - '0' as int
    else if 'a' <= c <= 'f' then c as int - 'a' as int + 10
    else c as int - 'A' as int + 10
  }

  /** The lower-case digit PHP's `bin2hex` and `dechex` print for a nibble. */
  function HexDigit(n: nat): (c: char)
    requires n < 16
    ensures IsLowerHexDigit(c) && IsHexDigit(c) && HexValue(c) == n
  {
    if n < 10 then ('0' as int + n) as char else ('a' as int + n - 10) as char
  }

  /** A byte of a PHP binary string, as its value. */
  type Byte = n: nat | n < 256

  function HighNibble(b: Byte): (n: nat)
    ensures n < 16
  {
    b / 16
  }

  function LowNibble(b: Byte): (n: nat)
    ensures n < 16
  {
    b % 16
  }

  /** PHP's `bin2hex`: two lower-case digits per byte, high nibble first. */
  function Bin2Hex(bs: seq<Byte>): (r: string)
    ensures |r| == 2 * |bs|
  {
    if bs == [] then ""
    else [HexDigit(HighNibble(bs[0])), HexDigit(LowNibble(bs[0]))] + Bin2Hex(bs[1..])
  }

  /** `bin2hex` writes lower-case hex digits only. */
  lemma {:induction false} Bin2HexIsLowerHex(bs: seq<Byte>)
    ensures IsLowerHex(Bin2Hex(bs))
  {
    if bs != [] {
      Bin2HexIsLowerHex(bs[1..]);
      var r := Bin2Hex(bs);
      forall i | 0 <= i < |r| ensures IsLowerHexDigit(r[i]) {
        if i >= 2 { assert r[i] == Bin2Hex(bs[1..])[i - 2]; }
      }
    }
  }

  /** Each digit pair of `bin2hex` reads back as the byte it came from. */
  lemma {:induction false} Bin2HexReadsBack(bs: seq<Byte>, i: nat)
    requires i < |bs|
    ensures Bin2Hex(bs)[2 * i] == HexDigit(HighNibble(bs[i])) && Bin2Hex(bs)[2 * i + 1] == HexDigit(LowNibble(bs[i]))
    ensures HexValue(Bin2Hex(bs)[2 * i]) * 16 + HexValue(Bin2Hex(bs)[2 * i + 1]) == bs[i]
  {
    if i != 0 {
      Bin2HexReadsBack(bs[1..], i - 1);
      var rest := Bin2Hex(bs[1..]);
      assert Bin2Hex(bs)[2 * i] == rest[2 * (i - 1)];
      assert Bin2Hex(bs)[2 * i + 1] == rest[2 * (i - 1) + 1];
    }
  }

  /**
   * PHP's `hexdec`: reads the hex digits of `s` from left to right and
   * ignores every other character. (PHP returns a float once the value
   * exceeds PHP_INT_MAX; the model keeps the exact integer.)
   */
  function HexDec(s: string): nat {
    if s == [] then 0
    else if IsHexDigit(s[|s| - 1]) then HexDec(s[..|s| - 1]) * 16 + HexValue(s[|s| - 1])
    else HexDec(s[..|s| - 1])
  }

  lemma HexDecSnoc(p: string, c: char)
    ensures HexDec(p + [c]) == if IsHexDigit(c) then HexDec(p) * 16 + HexValue(c) else HexDec(p)
  {
    assert (p + [c])[..|p + [c]| - 1] == p;
  }

  /** PHP's `dechex` on a non-negative integer: lower case, no leading zeros. */
  function DecHex(n: nat): (r: string)
    ensures |r| >= 1 && IsLowerHex(r)
    ensures r[0] == '0' ==> n == 0 && r == "0"
  {
    if n < 16 then [HexDigit(n)] else DecHex(n / 16) + [HexDigit(n % 16)]
  }

  /** `hexdec(dechex($n)) === $n`: the hex encoding of a count reads back as that count. */
  lemma {:induction false} HexDecOfDecHex(n: nat)
    ensures HexDec(DecHex(n)) == n
  {
    if n < 16 {
      HexDecSnoc("", HexDigit(n));
      assert "" + [HexDigit(n)] == [HexDigit(n)];
    } else {
      HexDecOfDecHex(n / 16);
      HexDecSnoc(DecHex(n / 16), HexDigit(n % 16));
    }
  }

  // ---------------------------------------------------------------------
  // substr(), str_starts_with(), strtolower(), truthiness
  // ---------------------------------------------------------------------

  /** `substr($s, $n)` for a non-negative start: empty once `n` passes the end. */
  function Drop(s: string, n: nat): (r: string)
    ensures |r| == if n <= |s| then |s| - n else 0
  {
    if n <= |s| then s[n..] else ""
  }

  predicate StartsWith(s: string, prefix: string) {
    |prefix| <= |s| && s[..|prefix|] == prefix
  }

  /** `str_starts_with($s, '0x') ? substr($s, 2) : $s` */
  function Strip0x(s: string): (r: string)
    ensures StartsWith(s, "0x") ==> "0x" + r == s
    ensures !StartsWith(s, "0x") ==> r == s
  {
    if StartsWith(s, "0x") then s[2..] else s
  }

  function LowerChar(c: char): char {
    if 'A' <= c <= 'Z' then (c as int - 'A' as int + 'a' as int) as char else c
  }

  /** PHP 8's locale-independent `strtolower`: ASCII letters only. */
  function ToLower(s: string): (r: string)
    ensures |r| == |s| && forall i | 0 <= i < |s| :: r[i] == LowerChar(s[i])
  {
    if s == [] then "" else [LowerChar(s[0])] + ToLower(s[1..])
  }

  /** Lower-casing twice is lower-casing once. */
  lemma ToLowerIdempotent(s: string)
    ensures ToLower(ToLower(s)) == ToLower(s)
  {
  }

  /** PHP truthiness of a nullable string: null, "" and "0" are false. */
  predicate Truthy(s: Option<string>) {
    s.Some? && s.value != "" && s.value != "0"
  }

  function NatToDecimal(n: nat): string {
    if n < 10 then [('0' as int + n) as char] else NatToDecimal(n / 10) + [('0' as int + n % 10) as char]
  }

  /** PHP's string conversion of an integer. */
  function IntToDecimal(i: int): string {
    if i < 0 then "-" + NatToDecimal(-i) else NatToDecimal(i)
  }
}
