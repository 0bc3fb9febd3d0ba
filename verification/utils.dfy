/**
 * The pure string helpers of the utils package: truncation with an
 * ellipsis, the first whitespace-separated field, session names, padding
 * and centring. Strings are byte strings; whitespace is ASCII whitespace.
 */
module Utils {

  import Text

  /**
   * `TruncateString`: a string longer than `maxLen` is cut to its first
   * `maxLen - 3` bytes followed by "...". The cut slices `s[:maxLen-3]`,
   * which panics in Go when `maxLen < 3`; callers must avoid that case.
   */
  function TruncateString(s: string, maxLen: int): (r: string)
    requires |s| <= maxLen || maxLen >= 3
    ensures |s| <= maxLen ==> r == s
    ensures |s| > maxLen ==> |r| == maxLen && r[..maxLen - 3] == s[..maxLen - 3] && r[maxLen - 3..] == "..."
    ensures |r| <= maxLen && |r| <= |s|
  {
    if |s| > maxLen then s[..maxLen - 3] + "..." else s
  }

  /** Truncating an already truncated string changes nothing. */
  lemma TruncateIdempotent(s: string, maxLen: int)
    requires |s| <= maxLen || maxLen >= 3
    ensures TruncateString(TruncateString(s, maxLen), maxLen) == TruncateString(s, maxLen)
  {
  }

  /**
   * The bytes `strings.Fields` splits on in ASCII input: the six ASCII
   * characters `unicode.IsSpace` accepts. Unicode spaces such as U+0085 and
   * U+00A0, which `strings.Fields` also splits on, are not modelled.
   */
  predicate IsSpace(c: char)
  {
    c == ' ' || c == '\t' || c == '\n' || c == '\U{000B}' || c == '\U{000C}' || c == '\r'
  }

  /** The number of leading whitespace bytes. */
  function LeadingSpaces(s: string): (k: nat)
    ensures k <= |s|
    ensures forall i :: 0 <= i < k ==> IsSpace(s[i])
    ensures k < |s| ==> !IsSpace(s[k])
    decreases |s|
  {
    if s != [] && IsSpace(s[0]) then 1 + LeadingSpaces(s[1..]) else 0
  }

  /** The longest prefix that holds no whitespace. */
  function Word(s: string): (w: string)
    ensures |w| <= |s| && w == s[..|w|]
    ensures forall i :: 0 <= i < |w| ==> !IsSpace(w[i])
    ensures |w| < |s| ==> IsSpace(s[|w|])
    decreases |s|
  {
    if s != [] && !IsSpace(s[0]) then [s[0]] + Word(s[1..]) else ""
  }

  /**
   * `ParseCommand`: the first field of `strings.Fields(cmdStr)`, or "" when
   * there is none. The result is the run of non-space bytes that starts
   * after the leading whitespace and ends at the next whitespace or the end.
   */
  function ParseCommand(cmdStr: string): (r: string)
    ensures forall i :: 0 <= i < |r| ==> !IsSpace(r[i])
    ensures r == "" <==> forall i :: 0 <= i < |cmdStr| ==> IsSpace(cmdStr[i])
    ensures var k := LeadingSpaces(cmdStr);
            k + |r| <= |cmdStr| && r == cmdStr[k..k + |r|] &&
            (k + |r| == |cmdStr| || IsSpace(cmdStr[k + |r|]))
  {
    var k := LeadingSpaces(cmdStr);
    var w := Word(cmdStr[k..]);
    assert |w| < |cmdStr[k..]| ==> cmdStr[k + |w|] == cmdStr[k..][|w|];
    w
  }

  /** The decimal digit for 0..9. */
  function Digit(d: nat): (c: char)
    requires d < 10
    ensures '0' <= c <= '9' && c as int - '0' as int == d
  {
    ('0' as int + d) as char
  }

  /** `fmt.Sprintf("%d", n)` for a non-negative n: digits, no leading zero. */
  function NatToDecimal(n: nat): (r: string)
    ensures |r| >= 1
    ensures forall i :: 0 <= i < |r| ==> '0' <= r[i] <= '9'
    ensures |r| > 1 ==> r[0] != '0'
    decreases n
  {
    if n < 10 then [Digit(n)] else NatToDecimal(n / 10) + [Digit(n % 10)]
  }

  /** `fmt.Sprintf("%d", n)`: a minus sign before the digits of a negative n. */
  function IntToDecimal(n: int): (r: string)
  {
    if n < 0 then "-" + NatToDecimal(-n) else NatToDecimal(n)
  }

  /** The value of a string of decimal digits, read most significant first. */
  function DecimalValue(s: string): nat
    requires forall i :: 0 <= i < |s| ==> '0' <= s[i] <= '9'
    decreases |s|
  {
    if s == [] then 0
    else DecimalValue(s[..|s| - 1]) * 10 + (s[|s| - 1] as int - '0' as int)
  }

  /** Reading back the decimal digits of n gives n. */
  lemma {:induction false} DecimalRoundTrip(n: nat)
    ensures DecimalValue(NatToDecimal(n)) == n
    decreases n
  {
    if n >= 10 {
      DecimalRoundTrip(n / 10);
      var r := NatToDecimal(n);
      assert r[..|r| - 1] == NatToDecimal(n / 10);
    }
  }

  /**
   * `FormatSessionName`: "shell-<index>" for an empty command, otherwise the
   * command truncated to 20 bytes.
   */
  function FormatSessionName(command: string, index: int): (r: string)
    ensures command == "" ==> r == "shell-" + IntToDecimal(index)
    ensures command != "" ==> |r| <= 20 && r == TruncateString(command, 20)
    ensures command != "" && |command| <= 20 ==> r == command
  {
    if command == "" then "shell-" + IntToDecimal(index) else TruncateString(command, 20)
  }

  /** `PadString`: spaces appended up to `length` bytes; longer strings are kept. */
  function PadString(s: string, length: int): (r: string)
    ensures |s| >= length ==> r == s
    ensures |s| < length ==>
              && |r| == length && r[..|s|] == s
              && forall i :: |s| <= i < length ==> r[i] == ' '
  {
    if |s| >= length then s else s + Text.Repeat(' ', length - |s|)
  }

  /**
   * `CenterString`: `(width - len(s)) / 2` spaces before s and none after,
   * so the result falls short of `width` by the other half of the gap.
   */
  function CenterString(s: string, width: int): (r: string)
    ensures |s| >= width ==> r == s
    ensures |s| < width ==>
              && |r| == |s| + (width - |s|) / 2 && |r| <= width
              && r[|r| - |s|..] == s
              && forall i :: 0 <= i < |r| - |s| ==> r[i] == ' '
  {
    if |s| >= width then s else Text.Repeat(' ', (width - |s|) / 2) + s
  }
}
