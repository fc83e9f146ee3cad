/** How the facade reads a status code off the first raw response line
    (src/Getty.php line 169): a case-insensitive `preg_match` of the pattern
    `.*\s(\d+)\s.*` followed by an `(int)` cast of the captured digits.
    The status-line itself is the one of section 4 of RFC 9112:
    HTTP-version SP status-code SP reason-phrase. */
module StatusLine {
  import opened PhpValues

  /** PCRE's `\s` outside UTF mode: space, HT, LF, VT, FF and CR. */
  predicate IsSpace(c: char) {
    c == ' ' || 9 <= c as int <= 13
  }

  predicate IsDigit(c: char) {
    '0' <= c <= '9'
  }

  /** The first index at or after `k` that does not hold a digit. */
  function DigitsEnd(s: string, k: nat): (e: nat)
    requires k <= |s|
    ensures k <= e <= |s|
    ensures forall m | k <= m < e :: IsDigit(s[m])
    ensures e < |s| ==> !IsDigit(s[e])
    decreases |s| - k
  {
    if k == |s| || !IsDigit(s[k]) then k else DigitsEnd(s, k + 1)
  }

  /** `\s(\d+)\s` matches with its first `\s` at `i`. Since no digit is
      whitespace, the `\d+` group then covers the whole digit run after `i`. */
  predicate GroupAt(s: string, i: nat) {
    i + 1 < |s| && IsSpace(s[i]) && IsDigit(s[i + 1])
    && DigitsEnd(s, i + 1) < |s| && IsSpace(s[DigitsEnd(s, i + 1)])
  }

  /** The digits captured by a match at `i`. */
  function Captured(s: string, i: nat): (ds: string)
    requires GroupAt(s, i)
    ensures ds != [] && forall m | 0 <= m < |ds| :: IsDigit(ds[m])
  {
    s[i + 1..DigitsEnd(s, i + 1)]
  }

  /** The index of the first line feed at or after `p`, or `|s|`. */
  function LineEnd(s: string, p: nat): (e: nat)
    requires p <= |s|
    ensures p <= e <= |s|
    ensures forall m | p <= m < e :: s[m] != '\n'
    ensures e < |s| ==> s[e] == '\n'
    decreases |s| - p
  {
    if p == |s| || s[p] == '\n' then p else LineEnd(s, p + 1)
  }

  /** The rightmost `i` with `lo <= i <= hi` at which the group matches. */
  function LastGroupIn(s: string, lo: nat, hi: nat): (r: Option<nat>)
    ensures r.Some? ==> lo <= r.value <= hi && GroupAt(s, r.value)
                        && forall k | r.value < k <= hi :: !GroupAt(s, k)
    ensures r.None? ==> forall k | lo <= k <= hi :: !GroupAt(s, k)
    decreases hi
  {
    if hi < lo then None
    else if GroupAt(s, hi) then Some(hi)
    else if hi == lo then None
    else LastGroupIn(s, lo, hi - 1)
  }

  /** Where the match of `.*\s(\d+)\s.*` puts its first `\s`. The engine
      tries start positions from the left; from a start `p` the leading `.*`
      may run up to the next line feed (`.` does not match one), and being
      greedy it settles on the rightmost group it can reach. */
  function MatchFrom(s: string, p: nat): (r: Option<nat>)
    requires p <= |s|
    ensures r.Some? ==> p <= r.value <= |s| && GroupAt(s, r.value)
    ensures r.None? <==> forall k | p <= k <= |s| :: !GroupAt(s, k)
    decreases |s| - p
  {
    var e := LineEnd(s, p);
    match LastGroupIn(s, p, e)
    case Some(i) => Some(i)
    case None => if e < |s| then MatchFrom(s, e + 1) else None
  }

  /** The match over the whole header line: when it succeeds it sits on a
      real occurrence of `\s(\d+)\s`, and it fails exactly when there is
      none. */
  function Match(s: string): (r: Option<nat>)
    ensures r.Some? ==> r.value <= |s| && GroupAt(s, r.value)
    ensures r.None? <==> forall k | 0 <= k <= |s| :: !GroupAt(s, k)
  {
    MatchFrom(s, 0)
  }

  /** On a line without line feeds, which is what a raw response header
      line is, the match is exactly the rightmost occurrence of the group,
      and there is none exactly when the group occurs nowhere. */
  lemma {:induction false} MatchOnSingleLine(s: string, i: nat)
    requires SingleLine(s)
    ensures Match(s) == Some(i) <==> (GroupAt(s, i) && forall k | i < k <= |s| :: !GroupAt(s, k))
    ensures Match(s) == None <==> (forall k | 0 <= k <= |s| :: !GroupAt(s, k))
  {
    LineEndOfSingleLine(s, 0);
    assert Match(s) == LastGroupIn(s, 0, |s|);
  }

  lemma {:induction false} LineEndOfSingleLine(s: string, p: nat)
    requires p <= |s| && SingleLine(s)
    ensures LineEnd(s, p) == |s|
    decreases |s| - p
  {
    if p < |s| {
      assert s[p] != '\n';
      LineEndOfSingleLine(s, p + 1);
    }
  }

  /** Value of a decimal digit string. */
  function DecimalValue(ds: string): (n: nat)
    requires forall m | 0 <= m < |ds| :: IsDigit(ds[m])
    decreases |ds|
  {
    if ds == [] then 0
    else
      var last := ds[|ds| - 1];
      assert IsDigit(last);
      DecimalValue(ds[..|ds| - 1]) * 10 + (last as int - '0' as int)
  }

  /** PHP_INT_MAX on a 64-bit build. */
  const PhpIntMax: int := 0x7FFF_FFFF_FFFF_FFFF

  /** The least integer that a correctly rounded decimal-to-double
      conversion (round half to even) turns into infinity, 2^1024 - 2^970:
      halfway between the largest finite IEEE 754 double, 2^1024 - 2^971,
      and 2^1024. In hexadecimal it is FFFFFFFFFFFFFC followed by 242
      zeros. */
  const DoubleOverflow: int := 0xFFFFFFFFFFFFFC00000000000000000000000000000000000000000000000000000000000000000000000000000000000000000000000000000000000000000000000000000000000000000000000000000000000000000000000000000000000000000000000000000000000000000000000000000000000000000000000000

  /** `(int)` of a digit string on 64-bit PHP 7 or later: a value up to
      PHP_INT_MAX is kept; a larger one is read as a double and capped at
      PHP_INT_MAX, unless the double is infinite, which casts to 0. */
  function IntCast(ds: string): (n: int)
    requires forall m | 0 <= m < |ds| :: IsDigit(ds[m])
    ensures 0 <= n <= PhpIntMax
    ensures DecimalValue(ds) <= PhpIntMax ==> n == DecimalValue(ds)
    ensures PhpIntMax < DecimalValue(ds) < DoubleOverflow ==> n == PhpIntMax
    ensures DoubleOverflow <= DecimalValue(ds) ==> n == 0
  {
    var v := DecimalValue(ds);
    if v <= PhpIntMax then v else if v < DoubleOverflow then PhpIntMax else 0
  }

  /** The code read off the first response line: the captured digits cast
      to an int, or 0 when the pattern does not match (PHP then reads an
      undefined `$matches[1]` as null). */
  function CodeOf(line: string): (code: int)
    ensures 0 <= code <= PhpIntMax
    ensures Match(line).None? ==> code == 0
  {
    match Match(line)
    case None => 0
    case Some(i) => IntCast(Captured(line, i))
  }

  /** On a line without line feeds, the code is the cast of the digits of
      the rightmost occurrence of the group. */
  lemma {:induction false} CodeOfSingleLine(s: string, i: nat)
    requires SingleLine(s) && GroupAt(s, i) && forall k | i < k <= |s| :: !GroupAt(s, k)
    ensures CodeOf(s) == IntCast(Captured(s, i))
  {
    MatchOnSingleLine(s, i);
  }

  lemma {:induction false} DigitsEndAt(s: string, k: nat, e: nat)
    requires k <= e < |s|
    requires forall m | k <= m < e :: IsDigit(s[m])
    requires !IsDigit(s[e])
    ensures DigitsEnd(s, k) == e
    decreases e - k
  {
    if k < e {
      DigitsEndAt(s, k + 1, e);
    }
  }

  /** No whitespace in `t` is directly followed by a digit. */
  predicate NoSpacedDigit(t: string) {
    forall m | 0 <= m < |t| - 1 :: !(IsSpace(t[m]) && IsDigit(t[m + 1]))
  }

  /** The group at `i`, with its digits ending at `j`, is the match when
      nothing after `j` starts another whitespace-delimited digit run. */
  lemma {:induction false} LastDigitRunMatches(s: string, i: nat, j: nat)
    requires SingleLine(s)
    requires i + 1 < j < |s| && IsSpace(s[i]) && IsSpace(s[j])
    requires forall m | i < m < j :: IsDigit(s[m])
    requires j + 1 < |s| ==> !IsDigit(s[j + 1])
    requires forall m | j < m < |s| - 1 :: !(IsSpace(s[m]) && IsDigit(s[m + 1]))
    ensures Match(s) == Some(i) && Captured(s, i) == s[i + 1..j]
  {
    DigitsEndAt(s, i + 1, j);
    assert GroupAt(s, i);
    forall k | i < k <= |s| ensures !GroupAt(s, k) {
      if k < j {
        assert IsDigit(s[k]);
      }
    }
    MatchOnSingleLine(s, i);
  }

  /** A status-line of section 4 of RFC 9112, first line of the response,
      yields its status-code, provided the reason-phrase holds no
      whitespace followed by a digit (and does not start with one). */
  lemma {:induction false} StatusLineCode(version: string, code: string, reason: string)
    requires SingleLine(version) && SingleLine(reason)
    requires code != [] && forall m | 0 <= m < |code| :: IsDigit(code[m])
    requires reason != [] ==> !IsDigit(reason[0])
    requires NoSpacedDigit(reason)
    ensures CodeOf(version + " " + code + " " + reason) == IntCast(code)
  {
    var s := version + " " + code + " " + reason;
    var i := |version|;
    var j := i + 1 + |code|;
    assert s[i + 1..j] == code;
    assert s[j + 1..] == reason;
    assert SingleLine(s) by {
      forall m | 0 <= m < |s| ensures s[m] != '\n' {
        if m < i {
          assert s[m] == version[m];
        } else if i < m < j {
          assert s[m] == code[m - i - 1];
        } else if j < m {
          assert s[m] == reason[m - j - 1];
        }
      }
    }
    forall m | i < m < j ensures IsDigit(s[m]) {
      assert s[m] == code[m - i - 1];
    }
    forall m | j < m < |s| - 1 ensures !(IsSpace(s[m]) && IsDigit(s[m + 1])) {
      assert s[m] == reason[m - j - 1] && s[m + 1] == reason[m - j];
    }
    if j + 1 < |s| {
      assert s[j + 1] == reason[0];
    }
    LastDigitRunMatches(s, i, j);
  }

  /** The status-line of a 404 response. */
  lemma NotFoundLine()
    ensures CodeOf("HTTP/1.1" + " " + "404" + " " + "Not Found") == 404
  {
    var version, code, reason := "HTTP/1.1", "404", "Not Found";
    assert SingleLine(version);
    assert SingleLine(reason);
    assert NoSpacedDigit(reason);
    StatusLineCode(version, code, reason);
    Value404();
  }

  lemma Value404()
    ensures DecimalValue("404") == 404
  {
    var code := "404";
    assert code[..2] == "40" && "40"[..1] == "4" && "4"[..0] == "";
  }

  /** The greedy leading `.*` lets digits in the reason phrase win over the
      status-code: a reason phrase holding a whitespace-delimited number
      yields that number. */
  lemma ReasonDigitsWin()
    ensures CodeOf("HTTP/1.1 500 Retry in" + " " + "30" + " " + "s") == 30
  {
    var version, code, reason := "HTTP/1.1 500 Retry in", "30", "s";
    assert SingleLine(version) && SingleLine(reason) && NoSpacedDigit(reason);
    StatusLineCode(version, code, reason);
    assert code[..1] == "3" && "3"[..0] == "";
    assert DecimalValue(code) == 30;
  }
}
