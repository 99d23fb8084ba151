/** String helpers the voting page relies on: JavaScript's `String.prototype.trim`,
    the decimal numerals produced by `Number.prototype.toString` for proposal ids,
    and the shortened wallet address shown in the navigation bar. */
module Text {

  /** The characters `trim` removes: ECMAScript WhiteSpace (tab, vertical tab, form
      feed, space, no-break space, byte order mark and the Unicode Zs category) and
      LineTerminator (line feed, carriage return, line and paragraph separator). */
  predicate IsTrimmable(c: char) {
    || c == '\t' || c == '\U{000B}' || c == '\U{000C}' || c == ' '
    || c == '\U{00A0}' || c == '\U{FEFF}' || c == '\U{1680}'
    || ('\U{2000}' <= c <= '\U{200A}')
    || c == '\U{202F}' || c == '\U{205F}' || c == '\U{3000}'
    || c == '\n' || c == '\r' || c == '\U{2028}' || c == '\U{2029}'
  }

  /** A string made of trimmable characters only (the empty string included). */
  predicate IsBlank(s: string) {
    forall i :: 0 <= i < |s| ==> IsTrimmable(s[i])
  }

  /** Drops the leading trimmable characters. */
  function TrimStart(s: string): (r: string)
    ensures |r| <= |s| && r == s[|s| - |r|..]
    ensures forall i :: 0 <= i < |s| - |r| ==> IsTrimmable(s[i])
    ensures |r| > 0 ==> !IsTrimmable(r[0])
  {
    if |s| > 0 && IsTrimmable(s[0]) then TrimStart(s[1..]) else s
  }

  /** Drops the trailing trimmable characters. */
  function TrimEnd(s: string): (r: string)
    ensures |r| <= |s| && r == s[..|r|]
    ensures forall i :: |r| <= i < |s| ==> IsTrimmable(s[i])
    ensures |r| > 0 ==> !IsTrimmable(r[|r| - 1])
  {
    if |s| > 0 && IsTrimmable(s[|s| - 1]) then TrimEnd(s[..|s| - 1]) else s
  }

  /** `s.trim()`: a piece of `s` that neither starts nor ends with whitespace, and is
      empty exactly when `s` is blank. */
  function Trim(s: string): (r: string)
    ensures |r| <= |s|
    ensures |r| > 0 ==> !IsTrimmable(r[0]) && !IsTrimmable(r[|r| - 1])
    ensures r == "" <==> IsBlank(s)
  {
    TrimEnd(TrimStart(s))
  }

  predicate IsDigit(c: char) {
    '0' <= c <= '9'
  }

  function DigitChar(d: nat): (c: char)
    requires d < 10
    ensures IsDigit(c)
  {
    ('0' as int + d) as char
  }

  /** The value of a decimal digit; every other character reads as 0. */
  function DigitValue(c: char): (d: nat)
    ensures d < 10
  {
    if IsDigit(c) then c as int - '0' as int else 0
  }

  /** `n.toString()` for a non-negative integer: its decimal numeral without
      leading zeros. */
  function NatToString(n: nat): (r: string)
    ensures |r| >= 1
    ensures forall i :: 0 <= i < |r| ==> IsDigit(r[i])
    ensures r[0] == '0' ==> n == 0
  {
    if n < 10 then [DigitChar(n)] else NatToString(n / 10) + [DigitChar(n % 10)]
  }

  /** Reads a string of decimal digits back as a number (the inverse of NatToString). */
  function ParseNat(s: string): nat {
    if s == [] then 0 else 10 * ParseNat(s[..|s| - 1]) + DigitValue(s[|s| - 1])
  }

  lemma {:induction false} ParseNatToString(n: nat)
    ensures ParseNat(NatToString(n)) == n
  {
    var s := NatToString(n);
    if n < 10 {
      assert s[..|s| - 1] == [];
    } else {
      assert s[..|s| - 1] == NatToString(n / 10);
      ParseNatToString(n / 10);
    }
  }

  /** Distinct numbers have distinct numerals. */
  lemma NatToStringInjective(m: nat, n: nat)
    ensures NatToString(m) == NatToString(n) ==> m == n
  {
    ParseNatToString(m);
    ParseNatToString(n);
  }

  /** The address shown once a wallet is connected:
      `${address.slice(0, 6)}...${address.slice(-4)}`. JavaScript's `slice` clamps
      both ends, so an address shorter than six (or four) characters is taken whole. */
  function ShortAddress(address: string): (r: string)
    ensures |r| == (if |address| <= 6 then |address| else 6) + 3 + (if |address| <= 4 then |address| else 4)
    ensures |address| >= 10 ==> |r| == 13
    ensures |address| >= 6 ==> r[..6] == address[..6] && r[6..9] == "..."
    ensures |address| >= 4 ==> r[|r| - 4..] == address[|address| - 4..]
    ensures |address| <= 4 ==> r == address + "..." + address
    ensures |address| < 6 ==> r[..|address|] == address && r[|address|..|address| + 3] == "..."
  {
    var head := if |address| <= 6 then address else address[..6];
    var tail := if |address| <= 4 then address else address[|address| - 4..];
    head + "..." + tail
  }

  /** A full-length address and one shorter than six characters. */
  lemma ShortAddressExamples()
    ensures ShortAddress("0x1234abcd5678") == "0x1234...5678"
    ensures ShortAddress("abcde") == "abcde...bcde"
  {
    var a := "0x1234abcd5678";
    assert a[..6] == "0x1234" && a[|a| - 4..] == "5678";
    assert "abcde"[1..] == "bcde";
  }
}
